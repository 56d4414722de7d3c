# gatherer-rs, modelled in Dafny

gatherer-rs collects WebRTC call-quality digests. Browsers send one JSON
digest per member and interval over a WebSocket. The server decodes each
digest and writes it to InfluxDB as four points, one per media slot, or
prints it when no database is configured. A local SFU source reassembles
25-byte binary server messages from a Unix socket. A replay tool sends a
file of pretty-printed digests back to the server.

The project models these pieces, one Dafny module per source file:

- `Base` holds the machine integer ranges, `Option`/`Result`, Rust's
  `as i64` on a `u64`, and two generic sequence facts.
- `Metrics` holds the digest data model and the JSON tree that serde's
  derived encoder writes and its decoder reads. This covers the camelCase
  member names, `null` for `None`, and the flattened `Option<Quality>`.
  The tree holds every kind of JSON value. The decoder rejects a value of
  the wrong kind, reads an integer into a float field, and ignores members
  whose keys the struct does not declare. It proves that decoding undoes
  encoding.
- `Storage` holds the decimal id tags, `create`, `enrich` and `convert`,
  the four points of `UdpClient::process`, and the `Option<D>` dispatch.
  Fields are lists in insertion order, with a last-wins lookup as the map's
  view.
- `Server` holds the `listen` loop. `Sweep` is the `drain_filter` pass
  over the connection vector. `Cycle` is one loop iteration: accept, then
  sweep. `Listen` is the `while` loop over a finite script of cycles. Each
  method is proved against a function of its inputs, and the lemmas state
  what a cycle keeps, closes and delivers.
- `Sfu` holds the little-/big-endian header decode and
  `process_one_message`. The code as written appends the whole zero-filled
  read buffer, and the module shows the misread this causes. A corrected
  step is proved to cut the byte stream into its 25-byte messages.
- `Replay` holds the replay tool's line-grouping loop and
  `process_json`: what is grouped, what is sent, and that nothing is lost.

Sockets, clocks, the JSON text parser, the float-to-nanoseconds timestamp
conversion and the InfluxDB client are inputs, not code. A socket read is
an outcome passed as a parameter. The monotonic clock is a nanosecond
count in each cycle of the script. The parsed message is a `Json` tree or
none. `convert_timestamp` is the function parameter `toNanos`. serde_json's
`as f64` conversion of an integer read into a float field is the function
parameter `asF64`. The database writes and console prints are returned as
a list of effects.

Two behaviours of the code are easy to misread, and the model follows the
code in both. A metrics object whose quality is only partly present is not
rejected: serde reads a flattened `Option<Quality>` that does not
deserialize as `None` and accepts the object, and the model does the same
(`Metrics.PartialQualityAccepted`, `Metrics.PartialQualityIsAbsent`). The
field name `last_read` suggests a stamp refreshed on every read, but the
code stamps a connection when it is accepted and never again, so eviction
counts from the accept (`Server.PooledConnections`). A connection that sends
a message every cycle is therefore closed at its first failed read once
more than `prune_period` whole seconds have passed since it was accepted,
however recently it last sent (`Server.SteadySenderClosed`, and the
Findings below).

## Model

| member | source | states |
|---|---|---|
| Base.AsI64 | src/storage.rs:84-106 | `value as i64` keeps values below 2^63 and maps larger ones to the negative number 2^64 lower; the result is congruent to the input modulo 2^64 |
| Base.AsI64Injective | src/storage.rs:84-106 | two different counters never become the same `i64` |
| Metrics.WireKeyIsCamelCase | src/metrics.rs:4-49 | every JSON key is the camelCase form of the Rust field name; `Resolution`'s `height`/`width` are unchanged |
| Metrics.CamelCaseKeeps | src/metrics.rs:4 | a name without underscores is its own camelCase form |
| Metrics.CamelCasePrefix | src/metrics.rs:4 | an underscore-free prefix passes through camelCase unchanged |
| Metrics.CamelCaseSplit | src/metrics.rs:4 | camelCase of `a_x` is `a` followed by `x` with its first letter upper-cased |
| Metrics.EncodeDigest | src/metrics.rs:3-10 | serde's derived encoder as a tree: camelCase keys in declaration order, `null` for `None`, the quality flattened; `Metrics.DecodeEncodeDigest` proves that decoding undoes it |
| Metrics.DecodeDigest | src/metrics.rs:3-10 | `from_str::<Digest>` on a parsed tree: a non-object, a missing or mistyped id, or a missing or undecodable bundle is an error; `Metrics.DecodeEncodeDigest` proves it undoes the encoder |
| Metrics.DecodeBundle | src/metrics.rs:12-17 | a bundle needs both `audio` and `video` and decodes each slot; `Metrics.DecodeEncodeBundle` proves it undoes the encoder |
| Metrics.DecodeMetrics | src/metrics.rs:19-36 | reads the eleven fixed fields, rejects a missing timestamp or a mistyped field, and reads the flattened quality; the lemmas below prove the round trip, the rejections and the partial quality |
| Metrics.ReadQuality | src/metrics.rs:34-43 | the flattened `Option<Quality>` is `Some` only when both members are present and well-typed; `Metrics.QualityNeedsFrameResolution` and `Metrics.PartialQualityMisses` state the `None` cases |
| Metrics.GetFirst | src/metrics.rs:3-49 | a member is found by key when no earlier member has the same key |
| Metrics.MetricsKeysLayout | src/metrics.rs:19-36 | a metrics object has the eleven fixed keys in declaration order, then `framesPerSecond` and `frameResolution` exactly when quality is present |
| Metrics.MetricsKeysDistinct | src/metrics.rs:19-43 | no two keys of a metrics object coincide, the flattened quality keys included |
| Metrics.EncodedMetricsLookup | src/metrics.rs:19-36 | every member of an encoded metrics object is read back under its own key |
| Metrics.GetPrefix | src/metrics.rs:3-49 | a member found in a prefix of an object is found there in the whole: later members never shadow it |
| Metrics.FixedMembersLookup | src/metrics.rs:19-33 | every one of the eleven fixed members is read back under its own key |
| Metrics.ReadBackAt | src/metrics.rs:19-33 | an object that starts with the fixed members holds each of them under its key, whatever follows |
| Metrics.ReadBackRates | src/metrics.rs:22-23 | `jitter` and `roundTripTime` read back as written, `None` included, whatever members follow the fixed ones |
| Metrics.ReadBackByteCounts | src/metrics.rs:24-25 | `bytesSent` and `bytesReceived` read back as written |
| Metrics.ReadBackPackets | src/metrics.rs:26-28 | the three packet counters read back as written |
| Metrics.ReadBackBytes | src/metrics.rs:29-32 | the header and retransmitted byte counters and the mandatory timestamp read back as written |
| Metrics.ReadBackPresentQuality | src/metrics.rs:34-43 | a present quality, flattened into the metrics object, reads back whole |
| Metrics.ReadBackResolution | src/metrics.rs:45-49 | a resolution reads back from its `height` and `width` |
| Metrics.ReadBackAbsentQuality | src/metrics.rs:34-35 | an absent quality writes no member that could read back as a quality |
| Metrics.TrailingMembers | src/metrics.rs:19-36 | members after the eleven fixed ones never change the fixed fields: the object decodes to the slot with whatever quality those members make up |
| Metrics.DecodeEncodeMetrics | src/metrics.rs:19-36 | decoding an encoded metrics slot gives the slot back |
| Metrics.DecodeEncodeBundle | src/metrics.rs:12-17 | decoding an encoded bundle gives both slots back |
| Metrics.DecodeEncodeDigest | src/metrics.rs:3-10 | decoding an encoded digest gives the digest back, for every digest |
| Metrics.IntegerFloatsRead | src/metrics.rs:22-32 | an integer JSON number in an `f64` field is accepted and read as its `as f64` conversion, both where the field is optional and where it is mandatory |
| Metrics.WholeNumbersDecode | src/metrics.rs:19-36 | an object with a whole jitter and a whole timestamp and no other metric decodes, whatever undeclared members it also holds, to those two converted values and `None` everywhere else |
| Metrics.MissingTimestampRejected | src/metrics.rs:32 | a metrics object without `timestamp` is rejected, whatever else it holds |
| Metrics.PartialQualityAccepted | src/metrics.rs:34-35 | the eleven fixed members followed by only `framesPerSecond`, or only `frameResolution`, decode successfully: the fixed fields as written and the quality absent |
| Metrics.PartialQualityMisses | src/metrics.rs:34-43 | after the fixed members, one quality member alone reads as no quality |
| Metrics.QualityNeedsFrameResolution | src/metrics.rs:34-43 | without `frameResolution` there is no quality |
| Metrics.AppendedMissing | src/metrics.rs:3-49 | a key absent from an object and from the member appended to it is still absent |
| Metrics.PartialQualityIsAbsent | src/metrics.rs:34-35 | whenever one of the two quality members is missing, a successful decode has no quality |
| Storage.Decimal | src/storage.rs:47 | `to_string` on an id: digits only, never empty, no leading zero, a single digit exactly below 10 |
| Storage.DigitsOfDecimal | src/storage.rs:47 | the digits of the rendering denote the number |
| Storage.ParseDecimal | src/storage.rs:44-48 | parsing the decimal rendering of a `u64` gives the same `u64` |
| Storage.DecimalInjective | src/storage.rs:44-48 | different ids never share a rendering |
| Storage.ConvertJanusId | src/storage.rs:44-48 | `convert_janus_id` stores a string that parses back to the id |
| Storage.Create | src/storage.rs:64-68 | `create` gives the measurement, no fields, no timestamp and exactly two tags, `room` then `member` |
| Storage.CreateCarriesIds | src/storage.rs:64-68 | the `room` and `member` tag values parse back to the room and member ids |
| Storage.AddIfSome | src/storage.rs:77-106 | an `if let Some` step appends one field when the value is present and none when absent, and changes nothing else |
| Storage.Enrich | src/storage.rs:74-114 | `enrich` stamps `toNanos(timestamp)`, keeps measurement and tags, and appends the fields of `Enriched` in the source's order |
| Storage.Convert | src/storage.rs:59-62 | `convert` is `create` followed by `enrich` |
| Storage.EnrichedCount | src/storage.rs:75-113 | the field count is the previous count plus one per present counter or rate, plus three when quality is present |
| Storage.LookupRates | src/storage.rs:77-82 | after the rate steps, `jitter` and `round-trip-time` hold their readings when present; every other field is unchanged |
| Storage.LookupBytes | src/storage.rs:83-88 | the same for `bytes-sent` and `bytes-received` |
| Storage.LookupPackets | src/storage.rs:89-97 | the same for the three packet counters |
| Storage.LookupOverhead | src/storage.rs:98-106 | the same for the retransmitted and header byte counters |
| Storage.LookupQuality | src/storage.rs:107-111 | a present quality sets `fps`, `width` and `height` to its values; an absent one sets nothing |
| Storage.LookupEnriched | src/storage.rs:74-114 | after `enrich`, each column holds its metric's reading when the metric is present, and otherwise what the point held before |
| Storage.EnrichedLookup | src/storage.rs:74-114 | on a fresh point, each column is present exactly when its metric is, with its reading |
| Storage.EnrichedColumns | src/storage.rs:77-111 | every field `enrich` adds is one of the thirteen columns |
| Storage.LabelMark | src/storage.rs:78-110 | a column's InfluxDB name determines the column |
| Storage.LabelInjective | src/storage.rs:78-110 | no two columns share an InfluxDB name |
| Storage.LookupByName | src/storage.rs:78-110 | looking a column up by its InfluxDB name agrees with looking it up by metric |
| Storage.EnrichedLookupByName | src/storage.rs:74-114 | the field written under each InfluxDB name holds its metric's reading |
| Storage.CounterValue | src/storage.rs:83-106 | each of the eight counter fields is `value as i64` of its counter: exact below 2^63 and negative above |
| Storage.ColumnsAppend | src/storage.rs:74-114 | the columns of two field lists joined are the two column lists joined |
| Storage.OrderStep | src/storage.rs:77-106 | an `if let Some` step adds its column to the columns exactly when its metric is present |
| Storage.OrderSteps | src/storage.rs:77-106 | two such steps add their columns in order, each when present |
| Storage.RateOrder | src/storage.rs:77-82 | the rate steps add `jitter` then `round-trip-time`, each when present |
| Storage.ByteOrder | src/storage.rs:83-88 | the byte steps add `bytes-sent` then `bytes-received`, each when present |
| Storage.PacketOrder | src/storage.rs:89-97 | the packet steps add the three packet columns in order, each when present |
| Storage.OverheadOrder | src/storage.rs:98-106 | the overhead steps add the retransmitted and header byte columns in order, each when present |
| Storage.QualityOrder | src/storage.rs:107-111 | the quality adds `fps`, `width`, `height` in that order exactly when present |
| Storage.EnrichedOrder | src/storage.rs:74-114 | on a fresh point, the columns `enrich` writes are the present ones, in the source's fixed thirteen-column order |
| Storage.QualityValues | src/storage.rs:107-111 | with quality present, `fps`, `width` and `height` carry its values exactly |
| Storage.AbsentQuality | src/storage.rs:107 | with quality absent, none of the three quality fields is written |
| Storage.UdpProcess | src/storage.rs:28-41 | writes exactly four points, `inbound-audio`, `outbound-audio`, `inbound-video`, `outbound-video`, from the matching slots, in that order |
| Storage.Process | src/storage.rs:10-18 | with a database, the four point writes; without one, exactly one print of the digest's JSON, which writes no point and decodes back to the digest |
| Storage.PointsCarryIds | src/storage.rs:30-36 | every point of a digest has two tags, `room` and `member`, that parse back to the digest's ids |
| Server.ElapsedBounds | src/server.rs:28 | `elapsed().as_secs()` is the largest whole number of seconds between two clock readings |
| Server.Decoded | src/server.rs:47-50 | a digest reaches storage only from a received message whose tree decodes to it |
| Server.Evicts | src/server.rs:53-64 | the `drain_filter` predicate: a failed read with pruning on and more whole seconds than the period since the stamp; `Server.EvictionBoundary` turns it into clock readings |
| Server.Survivors | src/server.rs:40-66 | the connections the sweep keeps, in pool order; `Server.SurvivorsMembership` and `Server.SweepPartition` state which and how many |
| Server.Closed | src/server.rs:53-61 | the connections the sweep closes, in pool order; `Server.SweepMultiset` proves that with the kept ones they are the pool |
| Server.Delivered | src/server.rs:41-50 | the digests the sweep hands to storage, in pool order; `Server.DeliveredMembership` states which |
| Server.NextPool | src/server.rs:29-66 | the pool after one cycle: the accepted connection joins the end, then the sweep filters; `Server.FreshSurvives` and `Server.NoPruningKeepsAll` are about it |
| Server.Sweep | src/server.rs:40-66 | the `drain_filter` pass keeps, closes and delivers exactly what `Survivors`, `Closed` and `Delivered` give for the pool |
| Server.Cycle | src/server.rs:29-66 | one iteration appends the accepted connection, stamped with the cycle's clock and an empty buffer, and then sweeps; returns the new pool, the digests delivered and the connections closed |
| Server.Continues | src/server.rs:28 | the `while` condition; `Server.CountdownBoundary` and `Server.StopsForGood` state when it holds |
| Server.Listen | src/server.rs:17-70 | runs cycles exactly while the loop condition holds, never stops with a zero countdown, and delivers every cycle's digests in order |
| Server.RanMeans | src/server.rs:28 | the loop condition held at every cycle that ran |
| Server.AfterOneMore | src/server.rs:28-66 | one more cycle extends the pool and the deliveries by that cycle's |
| Server.SurvivorsAppend | src/server.rs:40-66 | the sweep works connection by connection, so order is kept |
| Server.SurvivorsMembership | src/server.rs:40-66 | a connection is kept exactly when it was pooled and the prune rule does not mark it, and closed exactly when it does |
| Server.SweepMultiset | src/server.rs:40-66 | the kept and the closed connections together are the pool, as a multiset |
| Server.SweepPartition | src/server.rs:40-66 | every connection is kept or closed, never both, and the two counts add up to the pool's |
| Server.SurvivorsIdentity | src/server.rs:40-66 | when the rule marks no connection, the sweep keeps the pool exactly |
| Server.NoPruning | src/server.rs:54 | a prune period of zero never closes a connection |
| Server.ReceivedKept | src/server.rs:41-52 | a successful read keeps its connection, whether or not the message decodes |
| Server.EvictionBoundary | src/server.rs:53-64 | a failed read evicts exactly once `prune_period + 1` whole seconds have passed since the stamp; exactly `prune_period` seconds keeps the connection |
| Server.FreshSurvives | src/server.rs:29-38 | a connection accepted in a cycle is still pooled at its end |
| Server.DeliveredMembership | src/server.rs:47-50 | a digest goes to storage exactly when some pooled connection's message decodes to it, at most one per connection |
| Server.DecodedMessages | src/server.rs:47-50 | storage gets exactly the digest the message encodes, and nothing for a failed read or a non-JSON text |
| Server.NoPruningKeepsAll | src/server.rs:25-66 | with a prune period of zero, the pool is every connection ever accepted, in order |
| Server.PooledConnections | src/server.rs:32-36 | a pooled connection still has its accept-time stamp and an empty buffer: nothing rewrites it |
| Server.SteadySenderClosed | src/server.rs:32-64 | as written, a connection accepted at 0 s that sends at 0 s and 1.5 s is closed by a failed read at 2 s with a prune period of 1 s |
| Server.RestampedSurvivors | src/server.rs:40-66 | the corrected sweep: the same prune rule, with every successfully read connection re-stamped with the cycle's clock |
| Server.RestampedKeepsSenders | src/server.rs:41-64 | with the corrected stamp, a connection that reads a message is kept, stamped with that cycle's clock, and no failed read evicts it before `prune_period + 1` whole seconds later |
| Server.SteadySenderKept | src/server.rs:32-64 | with the corrected stamp, the same connection is still pooled after the failed read, stamped with its last message |
| Server.CountdownBoundary | src/server.rs:28 | a nonzero countdown keeps the loop running exactly until `countdown` seconds after the start |
| Server.StopsForGood | src/server.rs:28 | on a clock that does not go back, once the loop condition fails it stays failed |
| Sfu.Pow256 | src/sfu.rs:54-58 | a power of 256 is positive |
| Sfu.Widths | src/sfu.rs:54-58 | 256^1, 256^2, 256^4 and 256^8 are the `u8`, `u16`, `u32` and `u64` ranges |
| Sfu.OrderBounds | src/sfu.rs:54-58 | `k` bytes read in either byte order denote a number below 256^k, so every decoded field is in range |
| Sfu.LittleEndianRoundTrip | src/sfu.rs:54-55 | little-endian reading undoes little-endian writing |
| Sfu.BigEndianRoundTrip | src/sfu.rs:56-57 | big-endian reading undoes big-endian writing |
| Sfu.LittleEndianBytes | src/sfu.rs:58 | little-endian writing undoes little-endian reading |
| Sfu.BigEndianBytes | src/sfu.rs:56-57 | big-endian writing undoes big-endian reading |
| Sfu.ProcessServerMessage | src/sfu.rs:52-61 | reads the type byte, room and user little-endian, sequence number and timestamp big-endian, and length little-endian from the first 25 bytes; `Sfu.DecodeEncodeHeader` and `Sfu.EncodeDecodeHeader` prove it inverse to the 25-byte layout |
| Sfu.DecodeEncodeHeader | src/sfu.rs:52-61 | decoding reads back every header field: type at 0, room and user little-endian, sequence number and timestamp big-endian, length little-endian |
| Sfu.EncodeDecodeHeader | src/sfu.rs:52-61 | the header fixes the first 25 bytes exactly, and no byte after them is read |
| Sfu.Zeros | src/sfu.rs:26 | `vec![0; n]`: `n` zero bytes |
| Sfu.Chunk | src/sfu.rs:26-27 | the read buffer is always 25 bytes long, whatever the read returned |
| Sfu.LocalSource.PushAll | src/sfu.rs:33 | pushing byte by byte appends the bytes in order |
| Sfu.LocalSource.ProcessOneMessage | src/sfu.rs:25-41 | `process_one_message` as written: the new buffer and the decoded header are those of `AsWrittenStep` |
| Sfu.LocalSource.ProcessOneMessageFixed | src/sfu.rs:25-41 | the corrected call pushes only the bytes read, and leaves the buffer shorter than a message |
| Sfu.AsWrittenStep | src/sfu.rs:25-41 | `process_one_message` as written on values: a short read appends the whole zero-filled chunk, a completing read decodes the buffer completed from the chunk; `Sfu.AsWrittenLengths` and `Sfu.SplitReadMisdecoded` state what that does |
| Sfu.AsWrittenLengths | src/sfu.rs:27-38 | a failed read changes nothing; a short read grows the buffer by 25, which would break the buffer-size assertion only from a non-empty buffer, one the code never reaches; a completing read decodes exactly 25 bytes and leaves as many as the buffer held |
| Sfu.SplitReadMisdecoded | src/sfu.rs:26-38 | a message read as 13 bytes then 12 decodes wrongly whenever one of its last 12 bytes is non-zero |
| Sfu.ShortReadPads | src/sfu.rs:32-33 | a short read into an empty buffer leaves the bytes read followed by zeros |
| Sfu.FullBufferDecodesItself | src/sfu.rs:34-37 | into a full buffer, any read decodes the buffer itself and leaves the new padded chunk, so after a short read each later read decodes the previous padded chunk |
| Sfu.AsWrittenBufferSizes | src/sfu.rs:27-38 | from an empty or a full buffer, any read of at most a chunk passes the assertion and leaves the buffer empty or a message long |
| Sfu.AsWrittenRun | src/sfu.rs:21-41 | from `connect`'s empty buffer, every sequence of chunk-sized reads runs without breaking the assertion; the buffer stays empty or a message long and at most one header is decoded per read |
| Sfu.HeaderDeterminesMessage | src/sfu.rs:52-61 | two different 25-byte messages never decode to the same header |
| Sfu.SplitReadReassembled | src/sfu.rs:25-41 | the corrected step puts the 13 and 12 bytes back together into the message |
| Sfu.StepFrames | src/sfu.rs:25-41 | one corrected step takes the stream's next message, when it is complete, and keeps the rest |
| Sfu.FramesOfStream | src/sfu.rs:25-41 | over any reads, the corrected step decodes exactly the stream's 25-byte messages, in order, and the buffer keeps the unfinished tail |
| Replay.ProcessJson | test/replay.rs:17-26 | the record's joined text, sent only when it parses as JSON; `Replay.SentMembership` states what is sent |
| Replay.Split | test/replay.rs:40-52 | where the loop stands after each line: the closed records and the lines gathered since; `Replay.SplitCovers` and `Replay.SplitWellCut` state what it keeps |
| Replay.Groups | test/replay.rs:40-52 | the records handed to `process_json`, the final flush included; `Replay.GroupsCoverLines` and `Replay.GroupsShape` state what they hold |
| Replay.ConcatAppend | test/replay.rs:18 | `concat` of two lists of parts is the two joins concatenated |
| Replay.Replay | test/replay.rs:28-54 | the loop hands `process_json` exactly the records of `Groups` over the lines read; the messages sent are those records' texts that parse |
| Replay.SplitCovers | test/replay.rs:41-51 | the closed records and the buffer, joined, are the lines read so far |
| Replay.SplitStepCovers | test/replay.rs:42-48 | one more line adds exactly that line to what the records and the buffer hold |
| Replay.SplitNonEmpty | test/replay.rs:43-47 | the buffer is empty only before the first line, and no closed record is empty |
| Replay.SplitCount | test/replay.rs:43-46 | the loop closes one record for each `{`-line after the first line |
| Replay.SplitWellCut | test/replay.rs:43-47 | records are cut at `{`-lines and nowhere else |
| Replay.GroupsCoverLines | test/replay.rs:40-52 | joining all the records, the final flush included, gives back exactly the lines read, in order; failed reads contribute nothing |
| Replay.GroupsShape | test/replay.rs:43-52 | every record after the first begins with a `{`-line and no other line of a record does; there is one record more than `{`-lines after the first line; a record is empty only for an empty file |
| Replay.SentMembership | test/replay.rs:17-26 | a text is sent exactly when some record joins to it and it parses as JSON |
| Replay.AllJsonSendsEverything | test/replay.rs:17-26 | when every record parses, one message is sent per record and the messages spell out the lines read |

## Left out

- src/gather.rs is not part of this model: it holds option parsing, the keystore read, TLS setup, the TCP bind and the non-blocking transmute, all I/O or foreign calls.
- WebSocket `read_message`, `close` and their diagnostics (src/server.rs:41, 56-60): a read is an outcome parameter. `Sweep` and `Cycle` return the list of connections they close; `Listen` drops it, as the source keeps no record of closed connections.
- `into_text().unwrap()` (src/server.rs:42-43): `into_text` also converts binary frames, so only a payload that is not UTF-8 makes the unwrap panic; the model's read outcome is always a text message or a failure.
- `UnixStream` connect, read, non-blocking mode and shutdown (src/sfu.rs:14-23, 27, 43-45): a read is the bytes that arrived or an error.
- `UdpClient::write_point(...).unwrap()` (src/storage.rs:37-40): a write is an effect in a returned list; a failed write's panic is not modelled.
- `tungstenite::connect`, the option parsing and the file reads of the replay tool (test/replay.rs:29-37): the file is a sequence of line reads, each a line or an error, and a sent message is a returned string.
- `websocket.write_message(...).unwrap()` in the replay tool (test/replay.rs:23-24): a failed send would panic; the model's sent messages are a returned list and every send succeeds.
- Every `println!`/`print!` diagnostic, except the console sink's digest print, which is an effect.
- `convert_timestamp` (src/storage.rs:50-56) multiplies and rounds a float; it is the function parameter `toNanos`.
- Float values (`jitter`, `round_trip_time`, `timestamp`) are kept as uninterpreted 64-bit patterns; no float arithmetic is modelled.
- JSON text is not modelled: serde's parser and printer are replaced by a parsed JSON tree, and `serde_json::from_str::<Value>` in the replay tool is the parameter `isJson`.
- Metrics.DecodeEncodeDigest: serde_json prints a non-finite `f64` as `null`, so a digest whose jitter, round-trip time or timestamp holds a NaN or infinity bit pattern would not round-trip through the real printer; the model's tree keeps the bit pattern. A digest that was itself decoded from JSON text never holds one.
- Metrics.DecodeDigest: serde's derived decoder rejects an object that repeats a key; the model reads the first member with each key.
- Metrics.DecodeDigest: serde's derived decoders also accept a struct written as a JSON array of its fields in declaration order; the model reads only the object form that browsers send and the encoder writes.
- InfluxDB tags and fields are hash maps in the client library; here they are lists in insertion order, with a last-wins lookup as the map's view.
- `usize` counters are modelled as 64-bit values, as on a 64-bit target.
- Server.Listen: the source reads the clock once per connection; the model reads it once per cycle.
- Server.Listen: the source loops forever with a zero countdown; the model runs a finite script of cycles, so it states that no cycle of the script is skipped rather than non-termination.
- Sfu.ProcessServerMessage: the source slices the buffer and panics when it is shorter than 25 bytes, and its `io::Result` is never an error on 25 bytes; the model requires at least 25 bytes and returns the header.
- Sfu.LocalSource.ProcessOneMessage: the source's `assert!(k <= SERVER_MESSAGE_SIZE)` panics on a longer buffer; the model states it as a precondition on a successful read.

## Findings

| source | as written | input that shows it | evidently intended | confidence | as-written member | corrected member |
|---|---|---|---|---|---|---|
| src/sfu.rs:26-38 | a short read (`n < need`) pushes the whole 25-byte chunk, zeros included, into the buffer | one 25-byte message arriving as a 13-byte read and then a 12-byte read, with a non-zero byte among its last 12: the second call decodes the first 13 bytes followed by 12 zeros | push only the `n` bytes read, so that the next read completes the message | not executed | Sfu.SplitReadMisdecoded, Sfu.LocalSource.ProcessOneMessage | Sfu.FramesOfStream, Sfu.LocalSource.ProcessOneMessageFixed |
| src/server.rs:32-64 | `last_read` is set when the connection is accepted and never again, so the prune rule counts from the accept | prune period 1 s; a connection accepted at 0 s sends at 0 s and 1.5 s, and its read at 2 s fails: it is closed although it sent half a second before | re-stamp `last_read` on every successful read, so that only a connection silent for more than the prune period is closed | not executed; medium, the intent is read from the field's name | Server.SteadySenderClosed, Server.PooledConnections | Server.RestampedKeepsSenders, Server.SteadySenderKept |
