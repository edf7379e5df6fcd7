# netcap: a Dafny model of the parsers, the connection bookkeeping and the pipeline

netcap captures packets, reassembles TCP streams, hands each chunk to a protocol parser and ships the
parsers' events to Kafka. This project models the parts of it that were written by hand and are hard to
get right, and proves properties of them over all inputs or all runs. `dafny verify dfyconfig.toml`
checks everything.

| files | what they model |
|---|---|
| `DnsName.dfy`, `DnsMessage.dfy` | the DNS name decoder with compression pointers, and whole messages |
| `Resp.dfy` | the recursive Redis reader, its second array reader, and the stream loop |
| `ClientHello.dfy`, `Ja3.dfy` | the TLS ClientHello parser and the JA3 string |
| `HttpPairing.dfy` | per-connection counters, identifiers, the janitor and connection close |
| `Delivery.dfy` | stream buffers, the bounded channel, the close marker, and the dispatcher that consumes it |
| `Framing.dfy`, `MySql.dfy`, `Postgres.dfy`, `MongoDb.dfy`, `Mqtt.dfy` | one theory of frame loops and its four instances |
| `Registry.dfy` | the port index, probing, and the registry as `main` builds it |
| `Pipeline.dfy`, `Channels.dfy` | start, rollback and stop of stages, and all goroutines and channels as one state machine |
| `Common.dfy`, `Decimal.dfy`, `Join.dfy` | byte order, numerals, joining and splitting |

Where the source works by mutation the model does too: the loops are methods with invariants, and
`Parser`, `ConnState`, `Channel`, `BiStream`, `Registry` and `Pipeline` are classes. Each such method is
proved to compute a specification function, and the theorems are about those functions. Pure readers are
functions. Goroutines are steps of a state machine, so the theorems there cover every interleaving.

## What the proofs say about the code

Most promises of the code hold as made. These do not, and the model keeps the code as it is and states
exactly when the promise is met.

- DNS answers of type NS, CNAME or PTR: `formatRData` first calls `decodeName(pkt, -1)`, which indexes
  before the slice (internal/protocol/dns/parser.go:243). `DnsMessage.MessageRoundTrip` shows that a
  message is recovered if and only if it has no such answer, and fails at run time otherwise.
- Shutdown: `main` stops the stages in reverse order and gives them a bounded time
  (cmd/netcap/main.go:165-169), but the splitter's `Stop` waits for an input that only the decoder's later
  `Stop` closes (main.go:235-240, internal/decode/decoder.go:94-98), and no `Stop` looks at its context.
  `Channels.NetcapRuns` shows that no run reaches the end of `main`, not even the rollback after a metrics
  server that cannot start; `Channels.ReturnsExactly` says for which stage orders a shutdown can return.
- Stage order and the Kafka input: `Channels.PanicsExactly` shows that a run can send on a closed channel
  if and only if the dispatcher is started before Kafka, decoder and splitter are there to feed it, and no
  splitter started after both Kafka and the decoder keeps the shutdown from reaching Kafka. netcap starts
  Kafka first.
- Ports shared by two parsers: when neither claims the data, `Resolve` returns nothing and the fallback
  parser is not asked (internal/protocol/registry.go:40-51). `Registry.WiredResolvesToNothing` lists the
  ports where this happens: 80, 8080, 443, 993 and 995. `Resolve` also looks at the source port, which
  steps 1 to 3 of its own comment do not mention.
- Registration order does not matter, says cmd/netcap/main.go:185. `Registry.OrderIrrelevantExactly` shows
  that it does not if and only if no two different parsers share the highest positive score among the
  parsers `Resolve` chooses from. In the registry as built SMTP and FTP share it on a "220 " greeting between
  unlisted ports, unless a third parser scores above 90 (`Registry.WiredGreetingTie`).
- A parser that lists one port twice would be indexed twice; `Registry.IndexIsScan` is an equivalence.
- A MySQL ERR packet with an empty message: the test for the SQLSTATE marker asks for one byte too many
  (internal/protocol/mysql/parser.go:140), so marker and state are reported as the message.
- An MQTT CONNECT shorter than ten bytes yields no client identifier.
- A Redis null array, at whatever depth, ends the parsing of its chunk: `Resp.StreamRoundTrip` shows that a
  stream of values is read to its end if and only if none holds one, and what is read otherwise.
- An HTTP body is never reported as truncated while body capture is switched off, although nothing of it
  is captured (`HttpPairing.ReadBody`).
- A close marker is dropped exactly when the channel is full at the moment it is offered
  (`Delivery.MarkerEnqueued`). Then the connection's counters live on until the janitor removes them
  (`Delivery.LostMarkerKeepsState`), and a stream that reuses the identifier in time counts on
  (`Delivery.LostMarkerCountsOn`). `Delivery.ReuseStartsAtZero` says exactly when such a stream is numbered
  from 0, however often the identifier was used before.
- HTTP over UDP is parsed under the connection identifier 0 (internal/dispatch/dispatcher.go:152-161), so a
  TCP stream that happened to carry that identifier would share its counters.
- A TLS cipher list of odd length yields one suite too many, ended by the byte behind the list
  (`ClientHello.OddCipherList`). When the list ends with the message that read leaves the slice; this is the
  error `CipherListOverrun`.
- DNS label lengths from 64 to 191 are read as plain lengths and pointers may point forward. The wire
  relation `DnsName.NameAt` admits both; `DnsName.RfcDecodes` shows that it covers every encoding of section
  4.1.4 of RFC 1035.

## Model

| member | source | states |
|---|---|---|
| DnsName.DecodeName | internal/protocol/dns/parser.go:137-185 | the decoding loop with its visited set, resume offset and error cases; it terminates because each followed pointer uses up one of the 14-bit targets |
| DnsName.FreshTarget | internal/protocol/dns/parser.go:161-166 | following an unvisited pointer shrinks the set of targets left, the measure that ends the walk |
| DnsName.LoopDetectionExact | internal/protocol/dns/parser.go:137-185 | a loop is reported if and only if the walk without a visited set never ends; otherwise the result is exactly the labels and offset, or the bounds failure, that walk stops with |
| DnsName.SameSpotNeverEnds | internal/protocol/dns/parser.go:161-166 | a pointer target met twice means the unguarded walk repeats forever |
| DnsName.DecodeForward | internal/protocol/dns/parser.go:76-81 | after a decoded name the offset is strictly greater than before and at most the message length |
| DnsName.BoundsFailures | internal/protocol/dns/parser.go:143-182 | each failure of the walk and the place it takes: outside the message, at a pointer of one byte, at a label that runs over the end |
| DnsName.DecodesExactlyTheEncoded | internal/protocol/dns/parser.go:137-185 | decoding gives labels and end offset if and only if the bytes there derive them by a finite derivation over labels of 1 to 191 bytes and pointers in any direction |
| DnsName.RfcDecodes | internal/protocol/dns/parser.go:137-185 | every name encoded as section 4.1.4 of RFC 1035 has it, with labels of at most 63 bytes and pointers to earlier names only, is decoded to its labels and the offset where it ends in place |
| DnsName.NameAtExtends | internal/protocol/dns/parser.go:137-185 | a name readable in a message stays readable, with the same end, when bytes are appended |
| DnsName.PutNameEncodes | internal/protocol/dns/parser.go:137-185 | a writer that compresses against everything written before produces encodings of section 4.1.4 of RFC 1035, and keeps its dictionary truthful |
| DnsMessage.ReadTxt | internal/protocol/dns/parser.go:268-282 | the loop over the character strings of a TXT record, stopping at one that overruns |
| DnsMessage.TxtRoundTrip | internal/protocol/dns/parser.go:268-282 | the complete strings of a TXT record come back in order, whatever cut-off string follows them |
| DnsMessage.FindOffset | internal/protocol/dns/parser.go:288-300 | the address search finds exactly where the record data begins, and nothing for empty data |
| DnsMessage.ReadQuestions | internal/protocol/dns/parser.go:73-91 | the question loop reads the announced number of records, each starting where the one before ended, or fails as the first bad one does |
| DnsMessage.ReadAnswers | internal/protocol/dns/parser.go:94-128 | the same for the answer loop, with the run-time failure of formatting as an outcome |
| DnsMessage.Parse | internal/protocol/dns/parser.go:41-129 | header fields and both sections, with every error case |
| DnsMessage.MxRecovered | internal/protocol/dns/parser.go:258-267 | the exchange name of an MX record is read in place, compression included, behind its preference |
| DnsMessage.DataRecovered | internal/protocol/dns/parser.go:232-284 | record data: addresses as bytes, the complete texts of a TXT record joined by spaces even if a cut-off one follows, preference and exchange of an MX record, hexadecimal for everything without a format |
| DnsMessage.QuestionsRecovered | internal/protocol/dns/parser.go:73-91 | as many questions as stand in adjacent regions at an offset are all recovered, and reading ends where they end |
| DnsMessage.AnswersRecovered | internal/protocol/dns/parser.go:94-128 | the same for answers, if and only if none is an NS, CNAME or PTR |
| DnsMessage.MessageRoundTrip | internal/protocol/dns/parser.go:41-129 | every legal message, compressed over both sections and the exchanges of MX records, comes back field by field, question by question and answer by answer with its data, unless it holds an NS, CNAME or PTR answer, and then parsing fails at run time |
| DnsMessage.HexDigits | internal/protocol/dns/parser.go:284 | two lower-case digits for each byte, the high half first |
| DnsMessage.QuestionsExactly | internal/protocol/dns/parser.go:73-91 | a question section is read up to an offset if and only if the announced number of questions stands there one behind the other; it is truncated if and only if fewer stand and then a name with less than 4 bytes behind it; its name fails if and only if fewer stand and then no name |
| DnsMessage.AnswersExactly | internal/protocol/dns/parser.go:94-128 | the same for answers, with less than 10 bytes behind the name, data that runs over the end, no name, or an NS, CNAME or PTR as the only ways to fail |
| DnsMessage.ParsedExactly | internal/protocol/dns/parser.go:41-129 | exactly which messages are parsed, too short if and only if below 12 bytes, and where the header fields stand |
| Resp.CrlfIndex | internal/protocol/redis/parser.go:155-161 | the first line terminator, or none |
| Resp.Read | internal/protocol/redis/parser.go:165-225 | a successful read takes at least two bytes and never more than there are, for every nesting and every declared count |
| Resp.ReadValue | internal/protocol/redis/parser.go:165-225 | the code's reader with its loop over nested elements computes `Read` |
| Resp.ReadEncoded | internal/protocol/redis/parser.go:165-225 | round trip: for every value tree without a null array, inline commands included, and every trailer, exactly the encoding is consumed and the value's text returned; bulk data may contain line terminators; with a null array at any depth reading fails |
| Resp.ReadCut | internal/protocol/redis/parser.go:165-225 | self-delimiting: what follows the bytes a read consumed may be cut or replaced without changing the read |
| Resp.ReadManyCut | internal/protocol/redis/parser.go:204-219 | the same for any number of consecutive elements |
| Resp.CountBounded | internal/protocol/redis/parser.go:207-219 | a declared element count beyond half the remaining bytes always fails |
| Resp.ReadFailsExactly | internal/protocol/redis/parser.go:165-225 | a read fails exactly without a line terminator, for a bulk length that is no number or runs past the data, and for an array count that is no number or negative or has a failing element |
| Resp.ManyFailExactly | internal/protocol/redis/parser.go:210-218 | elements fail exactly when one fails behind those that can be read |
| Resp.DecodeArray | internal/protocol/redis/parser.go:88-133 | the second array reader with its own loop agrees with one built on `Read`, arguments and length |
| Resp.ReadersAgree | internal/protocol/redis/parser.go:70-151 | `decodeOne` consumes exactly what `readRESPValue` would, on every input, failures included |
| Resp.ValuesSelfDelimiting | internal/protocol/redis/parser.go:54-86 | the stream loop's frames satisfy the framing theory |
| Resp.Parse | internal/protocol/redis/parser.go:54-67 | the stream loop computes the framing theory's run |
| Resp.StreamRoundTrip | internal/protocol/redis/parser.go:54-151 | encoded values followed by any bytes give one event for each non-empty top-level array and each error, in order, then exactly the events of those bytes, if and only if no value holds a null array; otherwise the events of the values before the first that does, and reading stops in front of it |
| Resp.CommandFromTheWire | internal/protocol/redis/parser.go:88-133 | a non-empty array gives one command event filed under its sender, with the elements' texts as arguments, and a statement that splits into them at spaces, cut at a positive limit |
| Resp.OtherValuesOnTheWire | internal/protocol/redis/parser.go:70-86 | an error gives its text, and every other value, an empty array and an inline command among them, nothing |
| Resp.NullArrayStops | internal/protocol/redis/parser.go:94-97 | a value with a null array at any depth stops the loop in front of it: neither it nor anything after it is read |
| Decimal.NumeralReads | internal/protocol/tls/parser.go:334-348 | a printed number reads back as itself and has no superfluous leading zero |
| Decimal.CanonicalUnique | internal/protocol/unknown/parser.go:55-70 | there is no other canonical numeral for a number |
| Decimal.AtoiNumeral | internal/protocol/redis/parser.go:94 | reading a printed length or count gives it back, over the whole range of int |
| Decimal.AtoiSigned | internal/protocol/redis/parser.go:94 | a sign in front of the digits counts |
| Decimal.AtoiRejects | internal/protocol/redis/parser.go:94 | no digits, or anything but digits behind the sign, is no number |
| Decimal.ReverseInPlace | internal/protocol/unknown/parser.go:66-68 | the two-index swap loop reverses the buffer |
| Decimal.IntToStr | internal/protocol/unknown/parser.go:55-70 | digit loop plus reversal give the decimal numeral; a negative number gives the empty string |
| Decimal.HexPaddedInjective | internal/protocol/http/parser.go:242-244 | fixed-width hexadecimal is injective on the numbers that fit |
| Decimal.HexPaddedReads | internal/protocol/http/parser.go:242-244 | the digits read back as the number, most significant first |
| Join.SplitJoined | internal/protocol/tls/parser.go:295-348 | splitting a joined list gives the list back when no part holds the separator |
| Ja3.GreaseValues | internal/protocol/tls/parser.go:320-322 | the bit test holds of exactly the sixteen values of section 2 of RFC 8701 |
| Ja3.FilterGrease | internal/protocol/tls/parser.go:324-332 | the filter loop keeps the other values in order |
| Ja3.FilteredCounts | internal/protocol/tls/parser.go:324-332 | a value stands in the filtered list as often as in the list if it is no GREASE value, and else never |
| Ja3.JoinNumbers | internal/protocol/tls/parser.go:334-348 | the loop over the parts and the join give the dashed list of numerals |
| Ja3.BuildJa3 | internal/protocol/tls/parser.go:295-316 | the builder writes the five comma-separated fields |
| Ja3.FieldsSplit | internal/protocol/tls/parser.go:295-316 | splitting the string at its commas gives exactly the five fields back |
| Ja3.RawLayout | internal/protocol/tls/parser.go:295-316 | between commas stand, in this order, version, ciphers, extensions, curves and point formats, the first three lists without GREASE, each list as dash-separated canonical numerals of its values in wire order, an empty list as nothing |
| Ja3.DashedInjective | internal/protocol/tls/parser.go:334-348 | a dashed list determines its numbers, the empty list included |
| Ja3.RawIsCanonical | internal/protocol/tls/parser.go:295-348 | two hellos have the same string if and only if version and point formats agree and the three lists agree after removing GREASE |
| Ja3.InsertionVisibility | internal/protocol/tls/parser.go:320-332 | inserting a value anywhere in ciphers, extensions or curves leaves the string unchanged if and only if it is a GREASE value |
| ClientHello.ParseAlpn | internal/protocol/tls/parser.go:226-247 | the loop over protocol names, stopping at one that overruns |
| ClientHello.ParseU16List | internal/protocol/tls/parser.go:250-266 | the loop over two-byte values |
| ClientHello.ParseU8List | internal/protocol/tls/parser.go:269-284 | the loop over one-byte values is the slice its length byte announces, cut at the end |
| ClientHello.ReadCiphers | internal/protocol/tls/parser.go:117-122 | the cipher loop, odd lengths included |
| ClientHello.OddCipherList | internal/protocol/tls/parser.go:119-122 | a list of odd length gives one suite more than it has pairs, and its low byte is the byte behind the list |
| ClientHello.ReadExtensions | internal/protocol/tls/parser.go:145-176 | the extension loop: types in wire order, and each reader sees the last extension of its kind |
| ClientHello.CutExtension | internal/protocol/tls/parser.go:153-175 | an extension cut off with the message is read as far as it goes, behind the complete ones |
| ClientHello.ParseClientHello | internal/protocol/tls/parser.go:88-176 | one offset moved over the fields, with every error case in order, and the fingerprint string of what they held |
| ClientHello.BodyErrors | internal/protocol/tls/parser.go:88-137 | each failure by the field that does not fit, and a hello exactly when all fit |
| ClientHello.BodyTail | internal/protocol/tls/parser.go:145-176 | what follows the extension block is not looked at |
| ClientHello.BodyRoundTrip | internal/protocol/tls/parser.go:88-202 | version, cipher suites and extensions of every encoded hello come back in wire order |
| ClientHello.RecordRoundTrip | internal/protocol/tls/parser.go:42-84 | the same through record and handshake headers, whatever bytes follow the record |
| ClientHello.RecordExactly | internal/protocol/tls/parser.go:42-84 | too short, no handshake record, no handshake header, or another handshake with its type: exactly when |
| ClientHello.CutRecord | internal/protocol/tls/parser.go:50-70 | a record or handshake longer than the data is read as if it ended with it |
| ClientHello.HandshakeInRecord | internal/protocol/tls/parser.go:50-84 | the body ends where the handshake says and the record where it says, whatever follows either |
| ClientHello.ServerNameRead | internal/protocol/tls/parser.go:209-223 | the host name of an encoded server name extension (section 3 of RFC 6066), whatever entries follow it |
| ClientHello.ProtocolsRead | internal/protocol/tls/parser.go:226-247 | protocol names of an encoded ALPN extension (section 3.1 of RFC 7301) |
| ClientHello.GroupsRead | internal/protocol/tls/parser.go:250-266 | supported groups (section 5.1 of RFC 8422) |
| ClientHello.PointFormatsRead | internal/protocol/tls/parser.go:269-284 | point formats (section 5.1 of RFC 8422) |
| ClientHello.NoServerName | internal/protocol/tls/parser.go:209-223 | no host name in front, or one that is cut off, gives none |
| ClientHello.ProtocolsCutOff | internal/protocol/tls/parser.go:226-247 | a list of names that is cut off or announces more than is there gives its complete names |
| ClientHello.GroupsCutOff | internal/protocol/tls/parser.go:250-266 | a list that announces more than is there, or less, gives the pairs that lie in both |
| ClientHello.PointFormatsCutOff | internal/protocol/tls/parser.go:269-284 | the same for single bytes |
| ClientHello.HelloRoundTrip | internal/protocol/tls/parser.go:42-202 | a hello carrying the four extensions in any place among others gives back name, protocols, groups and formats together with suites and types |
| ClientHello.FingerprintFromTheWire | internal/protocol/tls/parser.go:42-202 | two hellos sent as records get the same fingerprint string if and only if version and point formats agree and suites, extension types and groups agree after removing GREASE; nothing else on the wire matters |
| HttpPairing.UidInjective | internal/protocol/http/parser.go:242-244 | identifiers are equal if and only if connection and sequence number are |
| HttpPairing.UidReads | internal/protocol/http/parser.go:242-244 | sixteen lower-case hexadecimal digits that read the connection, a dash, and the decimal number |
| HttpPairing.Parser.StateFor | internal/protocol/http/parser.go:136-143 | an existing state is returned as it is, a missing one is created with zero counters, no other is touched |
| HttpPairing.Parser.Touch | internal/protocol/http/parser.go:103-104 | lookup and time stamp as one step; every other connection unchanged |
| HttpPairing.Parser.NumberMessages | internal/protocol/http/parser.go:109-131 | each complete message takes the next number of its direction only |
| HttpPairing.Parser.Parse | internal/protocol/http/parser.go:100-132 | the table after the call, the identifiers returned, and an error only when there was no message and the failure is not an end of input |
| HttpPairing.Parser.EvictIdle | internal/protocol/http/parser.go:267-271 | one connection's state is removed exactly when it is idle past the cutoff, every other is left |
| HttpPairing.IdleTooLong | internal/protocol/http/parser.go:38 | a state goes when it has been idle for more than fifteen minutes |
| HttpPairing.Parser.SweepOnce | internal/protocol/http/parser.go:265-273 | a sweep with nothing in between removes exactly the states idle past the cutoff |
| HttpPairing.SweepIsEvictions | internal/protocol/http/parser.go:267-273 | evicting the connections one by one, in whatever order, is the sweep |
| HttpPairing.TableFromOperations | internal/protocol/http/parser.go:100-143 | from the operations alone: a connection has a state exactly when it had a Parse and since the last one no close and no eviction with a cutoff past its stamp; the state's stamp is that Parse's, and its counters are the messages counted since the state came to be, modulo 2^64 |
| HttpPairing.Parser.OnConnClose | internal/protocol/http/parser.go:283-285 | close removes exactly that connection's state |
| HttpPairing.RunNumbered | internal/protocol/http/parser.go:100-143 | in every reachable state each counter is the number of messages its lifetime has emitted in that direction, and each emitted number is its message's rank |
| HttpPairing.Pairing | internal/protocol/http/parser.go:100-143 | in every interleaving, two events of one lifetime share an identifier if and only if both are the k-th of their direction for the same k; two different ones that share one are a request and a response |
| HttpPairing.PairingModulo | internal/protocol/http/parser.go:155 | the same with no bound on the run: ranks agree modulo 2^64, where the counters wrap |
| HttpPairing.PartnerExists | internal/protocol/http/parser.go:100-143 | once the other direction has emitted enough messages, exactly one of them carries a given message's identifier |
| HttpPairing.NumbersConsecutive | internal/protocol/http/parser.go:155-201 | per lifetime and direction the numbers are 0, 1, 2, ... in order of emission and without gap |
| HttpPairing.NoCrossing | internal/protocol/http/parser.go:242-244 | no identifier is shared between connections, whatever wraps or closes |
| HttpPairing.CloseRestarts | internal/protocol/http/parser.go:278-285 | after a close the state is gone and the next messages on the identifier start again at 0 in a new lifetime |
| HttpPairing.SteadyOneLife | internal/protocol/http/parser.go:33-42 | a connection with Parse calls at most 15 minutes apart and no close has one lifetime for the whole run, whatever sweeps run, late ticks included |
| HttpPairing.JanitorKeepsNumbering | internal/protocol/http/parser.go:258-276 | so its numbering has no gap or repeat over the whole run |
| HttpPairing.PairsUp | internal/protocol/http/parser.go:100-143 | over a whole connection with timely calls, from its first Parse to its close, the k-th request and the k-th response share an identifier that no third message of the connection has |
| HttpPairing.ReadBody | internal/protocol/http/parser.go:220-240 | the captured prefix, the reader left at its end, and the truncation flag exactly when capture is on and the body was longer |
| Delivery.Channel.TrySend | internal/reassembly/stream.go:180-185 | the non-blocking send: appended if there is room, dropped otherwise |
| Delivery.BiStream.EmitClose | internal/reassembly/stream.go:121-140 | the marker is offered once and recorded as enqueued or lost |
| Delivery.BiStream.FlushDirection | internal/reassembly/stream.go:144-186 | a flush offers the whole buffer as one chunk, empties it, and leaves the other direction alone |
| Delivery.BiStream.ReassembledSG | internal/reassembly/stream.go:69-93 | data is appended to its direction and flushed when the threshold is reached |
| Delivery.BiStream.ReassemblyComplete | internal/reassembly/stream.go:97-116 | three sends, the client's chunk, the server's chunk and the close marker, with any number of receives by the dispatcher between them |
| Delivery.StreamConservation | internal/reassembly/stream.go:69-93 | in every reachable state the bytes fed to a direction are its flushed chunks in order followed by its buffer, the buffer is below 256 KiB, and the consumer has a prefix of the chunks that found room |
| Delivery.FedIsInput | internal/reassembly/stream.go:69-87 | in every run what is in a direction is exactly what the engine fed into it before the completion, in order |
| Delivery.ChunksWaitForThreshold | internal/reassembly/stream.go:89-92 | in every run each chunk flushed while a stream receives has at least 256 KiB, and of a stream being completed each but the last of a side |
| Delivery.CompletionInOrder | internal/reassembly/stream.go:97-116 | with room enough a completion enqueues the client's rest, the server's rest and the marker, in this order |
| Delivery.WholeStreamDelivered | internal/reassembly/stream.go:144-186 | with nothing dropped and the channel drained the consumer has every byte but the buffered ones |
| Delivery.CloseNeverOvertakes | internal/reassembly/stream.go:97-140 | in every run, with receives between the sends of a completion, an enqueued marker comes after every enqueued chunk of its stream and before none, with both buffers empty |
| Delivery.MarkerEnqueued | internal/reassembly/stream.go:119-140 | in every run the marker is ever enqueued if and only if the channel has room at the moment it is offered |
| Delivery.ReceiveMakesRoom | internal/reassembly/stream.go:102-112 | with one slot and a chunk still buffered, a receive between the two sends decides whether the marker gets in |
| Delivery.FirstBeforeSecond | internal/reassembly/stream.go:97-140 | all messages of a stream, its marker included, come before all messages of a stream opened after it was complete |
| Delivery.MarkerCleared | internal/dispatch/dispatcher.go:107-111 | when the dispatcher reaches the first message of a stream that reuses an identifier, after any number of earlier streams with it, and the last one's marker found room, no HTTP state is left |
| Delivery.ReuseStartsAtZero | internal/protocol/http/parser.go:278-285 | the reusing stream is numbered from 0 if and only if the last earlier stream's marker found room, the operations left no state, or the state they left has counted nothing in that direction (modulo 2^64) |
| Delivery.TakenFromThere | internal/dispatch/dispatcher.go:107-143 | a chunk taken as HTTP numbers its messages consecutively from the number the table holds, and changes no earlier event |
| Delivery.LostMarkerKeepsState | internal/reassembly/stream.go:119-139 | when no marker of an identifier found room, it has a state exactly when it had a Parse and since the last one no eviction with a cutoff past its stamp |
| Delivery.LostMarkerCountsOn | internal/protocol/http/parser.go:278-285 | when no marker of an identifier found room and its Parse calls are at most 15 minutes apart, all its messages, of whichever stream, are numbered in one lifetime |
| Delivery.StreamPairs | internal/dispatch/dispatcher.go:107-143 | end to end: when a stream alone carries its identifier, its chunks are taken as HTTP with the messages their bytes hold, and its Parse calls are timely, the k-th request and the k-th response in the consumed chunks share an identifier that no third message has |
| Delivery.DeliveredStreamPairs | internal/reassembly/stream.go:144-186 | with nothing dropped and the channel drained these are all requests and responses of the stream's chunks |
| Delivery.ReuseStartsAfresh | internal/dispatch/dispatcher.go:107-111 | once the dispatcher has taken a marker, the HTTP state of that connection is gone and a chunk parsed on it next is numbered from 0 |
| Framing.StopsOnlyWithoutFrame | internal/protocol/mysql/parser.go:65-79 | a frame loop stops only at a suffix of the data at whose front no frame can be read |
| Framing.RunResumes | internal/protocol/postgres/parser.go:68-82 | parsing is incremental: the events of a + b are those of a, then those of what a left unread plus b |
| Framing.RunComposes | internal/protocol/mongodb/parser.go:63-76 | complete frames followed by any bytes give the events of the frames, then those of the bytes |
| Framing.FramesRead | internal/protocol/mqtt/parser.go:63-104 | a list of encoded frames gives exactly their events in order |
| MySql.PacketsSelfDelimiting | internal/protocol/mysql/parser.go:65-79 | MySQL packets are frames: never empty, inside the data, independent of what follows |
| MySql.Parse | internal/protocol/mysql/parser.go:62-81 | the packet loop computes the framing theory's run |
| MySql.PacketsRoundTrip | internal/protocol/mysql/parser.go:62-92 | a stream of non-empty packets gives one event for each that has one, then the events of what follows |
| MySql.TakesExactly | internal/protocol/mysql/parser.go:65-79 | the loop takes a packet exactly when an encoded non-empty one is at the front |
| MySql.QueryTextRecovered | internal/protocol/mysql/parser.go:94-116 | a client's COM_QUERY or COM_STMT_PREPARE packet gives one request event with the text behind the command byte, cut at the limit; any other command nothing |
| MySql.ServerPacketRead | internal/protocol/mysql/parser.go:119-131 | OK gives one response event, any other first byte but ERR nothing |
| MySql.ServerErrRead | internal/protocol/mysql/parser.go:132-154 | an ERR packet with state and message gives code and message |
| MySql.PlainErr | internal/protocol/mysql/parser.go:132-154 | without the marker the whole rest is the message |
| MySql.ErrRoundTrip | internal/protocol/mysql/parser.go:136-159 | the error code is always recovered, the message if and only if it is not empty |
| Postgres.ReadErrorText | internal/protocol/postgres/parser.go:139-173 | the field loop with its three variables keeps the last field of each kind |
| Postgres.FieldsRoundTrip | internal/protocol/postgres/parser.go:139-173 | a terminated field list is read back whole, whatever follows the terminator |
| Postgres.FieldsCutOff | internal/protocol/postgres/parser.go:139-173 | a field that is cut off ends the list |
| Postgres.ErrorTextLayout | internal/protocol/postgres/parser.go:139-173 | severity, a space, the code, a colon and a space, the message, each from the last field of its kind; only from the server |
| Postgres.MessagesSelfDelimiting | internal/protocol/postgres/parser.go:68-82 | tagged messages are frames |
| Postgres.Parse | internal/protocol/postgres/parser.go:53-84 | startup skip and message loop compute the framing theory's run |
| Postgres.StartupSkipped | internal/protocol/postgres/parser.go:56-66 | a client's startup message is skipped exactly |
| Postgres.StartupExactly | internal/protocol/postgres/parser.go:56-66 | a client's data loses its first bytes exactly when they announce version 3.0 and a length within the data, and then that many |
| Postgres.ServerDataWhole | internal/protocol/postgres/parser.go:56-57 | a server's data is left whole |
| Postgres.TakesExactly | internal/protocol/postgres/parser.go:68-82 | the loop takes a message exactly when an encoded one is at the front |
| Postgres.MessagesRoundTrip | internal/protocol/postgres/parser.go:68-101 | a stream of messages gives one event for each that has one, then the events of what follows |
| Postgres.QueryTextRecovered | internal/protocol/postgres/parser.go:104-136 | the SQL of a simple query, and of a Parse message behind its statement name, cut at the configured length |
| Postgres.QueryEvent | internal/protocol/postgres/parser.go:68-116 | an encoded simple query in a stream gives one request event with its text |
| Postgres.UnterminatedText | internal/protocol/postgres/parser.go:118-136 | without a terminator the text reaches to the end, and a Parse message without a terminated name gives nothing |
| Postgres.OtherTagsSilent | internal/protocol/postgres/parser.go:86-101 | no other tag gives an event |
| MongoDb.ReadCString | internal/protocol/mongodb/parser.go:202-209 | the scan returns the bytes before the first terminator, nothing without one |
| MongoDb.MessagesSelfDelimiting | internal/protocol/mongodb/parser.go:63-76 | messages are frames |
| MongoDb.Parse | internal/protocol/mongodb/parser.go:60-78 | the message loop computes the framing theory's run |
| MongoDb.MessagesRoundTrip | internal/protocol/mongodb/parser.go:60-91 | a stream of messages gives one event for each that has one, then the events of what follows |
| MongoDb.TakesExactly | internal/protocol/mongodb/parser.go:63-76 | the loop takes a message exactly when an encoded one is at the front |
| MongoDb.FirstKeyRecovered | internal/protocol/mongodb/parser.go:161-199 | name and string value of a document's first element |
| MongoDb.CommandRecovered | internal/protocol/mongodb/parser.go:94-130 | an OP_MSG command gives its name and the collection it names |
| MongoDb.OtherKeyRecovered | internal/protocol/mongodb/parser.go:161-199 | a first element of another type gives the command name and no collection |
| MongoDb.StringCutOff | internal/protocol/mongodb/parser.go:192-197 | a string that runs over the document gives the name alone |
| MongoDb.StringToTheEnd | internal/protocol/mongodb/parser.go:192-197 | a string that ends with the document needs no terminator |
| MongoDb.NoDocument | internal/protocol/mongodb/parser.go:162-168 | a length that is too small or beyond the data gives nothing |
| MongoDb.QueryRecovered | internal/protocol/mongodb/parser.go:133-158 | OP_QUERY gives the collection it names, always as a request, and nothing without a name |
| MongoDb.OtherSectionSilent | internal/protocol/mongodb/parser.go:94-110 | another section kind gives nothing |
| MongoDb.OtherOpcodesSilent | internal/protocol/mongodb/parser.go:80-92 | another opcode gives nothing |
| Mqtt.DecodeRemainingLength | internal/protocol/mqtt/parser.go:110-121 | the loop with value and multiplier computes the base-128 reading, failure as (0, -1) |
| Mqtt.VarIntRoundTrip | internal/protocol/mqtt/parser.go:110-121 | every length that fits the allowed bytes is read back from exactly its encoding, whatever follows |
| Mqtt.VarIntBounds | internal/protocol/mqtt/parser.go:110-121 | a value read from n bytes is below 128 to the n and determined by those bytes |
| Mqtt.RemainingLengthRange | internal/protocol/mqtt/parser.go:110-121 | the range 0 to 268435455 of section 2.2.3 of MQTT 3.1.1, both ways |
| Mqtt.ConnectRecovered | internal/protocol/mqtt/parser.go:124-140 | the client identifier of a CONNECT is recovered if the packet has ten bytes, and nothing otherwise |
| Mqtt.PublishRecovered | internal/protocol/mqtt/parser.go:143-152 | the topic of a PUBLISH is recovered |
| Mqtt.ClientIDCutOff | internal/protocol/mqtt/parser.go:124-140 | a CONNECT cut off in its identifier or before it gives none |
| Mqtt.TopicCutOff | internal/protocol/mqtt/parser.go:143-152 | a topic that is cut off is empty |
| Mqtt.PacketsSelfDelimiting | internal/protocol/mqtt/parser.go:63-104 | packets are frames |
| Mqtt.Parse | internal/protocol/mqtt/parser.go:60-106 | the packet loop computes the framing theory's run |
| Mqtt.PacketsRoundTrip | internal/protocol/mqtt/parser.go:60-106 | a stream of packets gives one event for each, then the events of what follows |
| Mqtt.ConnectEvent | internal/protocol/mqtt/parser.go:60-104 | an encoded CONNECT gives its direction, type 1, the identifier and no topic |
| Mqtt.PublishEvent | internal/protocol/mqtt/parser.go:60-104 | an encoded PUBLISH gives its direction, type 3, the topic and no identifier |
| Mqtt.OtherEvent | internal/protocol/mqtt/parser.go:60-104 | any other packet gives its direction and type alone |
| Mqtt.TakesExactly | internal/protocol/mqtt/parser.go:63-104 | the loop takes a packet exactly when a type from 1 to 14, one to four length bytes and as many bytes as they say are at the front |
| Registry.Registry.Register | internal/protocol/registry.go:20-25 | each port's entry stays the registration history filtered by that port, in order, with one copy for each time a parser lists it |
| Registry.Registry.BestProbe | internal/protocol/registry.go:70-80 | the probing loop returns the specified winner |
| Registry.Registry.Resolve | internal/protocol/registry.go:38-56 | resolution through the index equals its index-free definition, destination port first, then source port, then everybody |
| Registry.BestIsEarliestMaximum | internal/protocol/registry.go:70-80 | the winner is the earliest parser of maximal positive score, and there is none if and only if no score is positive |
| Registry.IndexIsScan | internal/protocol/registry.go:20-25 | the index agrees with a scan of all parsers if and only if no parser lists the port twice |
| Registry.ResolveByScan | internal/protocol/registry.go:38-56 | then resolution by index and by scan are the same |
| Registry.ResolvesToNothing | internal/protocol/registry.go:38-56 | exactly when nothing is resolved |
| Registry.ResolvesExactly | internal/protocol/registry.go:38-56 | exactly what is resolved: the only parser of the destination port unprobed, or the earliest highest score of several, else the same for the source port, else the earliest highest score of all |
| Registry.OrderIrrelevantExactly | cmd/netcap/main.go:185-186 | every reordering of the registrations resolves alike if and only if no two different parsers share the highest positive score among the contenders |
| Registry.GreetingTie | internal/protocol/smtp/parser.go:24-41 | SMTP and FTP score the same on every "220 " greeting: with these two and the fallback alone, whichever was registered first gets it |
| Registry.WiredGreetingTie | cmd/netcap/main.go:185-202 | in the registry as built both are top contenders for the greeting on unlisted ports when no other parser scores above 90, and then another order of registration resolves otherwise |
| Registry.FallbackLast | internal/protocol/unknown/parser.go:22-27 | with the fallback registered last, a non-empty sample on two unlisted ports always resolves, and to the fallback if and only if every other parser scores 0 |
| Registry.WiredShared | cmd/netcap/main.go:180-204 | the ports listed by two of the registered parsers are exactly 80, 8080, 443, 993 and 995 |
| Registry.WiredResolvesToNothing | cmd/netcap/main.go:180-204 | with the parsers as registered, data is left without a parser exactly on those ports when neither parser claims it, or when nobody claims empty data |
| Pipeline.StopInReverse | internal/pipeline/pipeline.go:85-98 | every stage is stopped, last first, and the first error met is the one returned |
| Pipeline.Pipeline.AddStage | internal/pipeline/pipeline.go:40-44 | stages are kept in the order added |
| Pipeline.Pipeline.Run | internal/pipeline/pipeline.go:49-71 | when the k-th start fails, exactly the stages before it are stopped in reverse and the start's error is reported, whatever the rollback returns |
| Pipeline.Pipeline.Shutdown | internal/pipeline/pipeline.go:75-82 | all stages are stopped in reverse and the first error is returned |
| Pipeline.RollbackMirrorsStart | internal/pipeline/pipeline.go:56-67 | in a failed start each started stage is stopped exactly once, after all that were started later |
| Channels.RunKeepsInv | cmd/netcap/main.go:133-150 | for every order of stages and every interleaving: a goroutine lives only while its stage is up, and a channel is closed only once its senders are past sending |
| Channels.ClosedAfterItsSenders | internal/output/kafka.go:106-108 | if the dispatcher is not started before Kafka, no run sends on a closed channel or closes one twice; the Kafka input closes only after both dispatcher loops, every other channel only after its senders |
| Channels.PanicsExactly | internal/pipeline/pipeline.go:85-98 | some run sends on a closed channel or closes one twice if and only if the dispatcher is started before Kafka, decoder and splitter are among the stages, and it is not the case that the splitter is started after both Kafka and the decoder |
| Channels.TcpPacketArrives | internal/reassembly/tcp.go:130-157 | with all of them started a TCP packet can come through decoder, splitter, reassembler and dispatcher to Kafka |
| Channels.ReturnsWhenDone | internal/dispatch/dispatcher.go:77-104 | each goroutine may return exactly on cancellation or when its input is closed and drained |
| Channels.NeverReturns | cmd/netcap/main.go:235-240 | if no stage stopped before the splitter closes its input, the started splitter waits forever and the main goroutine never ends |
| Channels.ReturnsExactly | internal/pipeline/pipeline.go:75-98 | a shutdown after a complete start can return if and only if there is no splitter or it is started before the decoder |
| Channels.NetcapRuns | cmd/netcap/main.go:133-175 | in netcap's order no run panics and none reaches the end of main; once the splitter was started it and the decoder stay up |
| Channels.NetcapReachesTheSplitter | internal/reassembly/tcp.go:116-124 | shutdown does close the Kafka and the reassembly channel before it gets stuck |

## Left out

- Sockets, AF_PACKET, Kafka writers, Prometheus, configuration, logging and JSON: I/O or library code.
- The reassembly engine and the connection hash: an environment that opens streams, feeds bytes and completes each stream once; connection identifiers are given values.
- net/http: a chunk is its number of complete messages and the way reading on failed. That chunks are cut at message boundaries is an assumption behind calling two emitted events a request and its response.
- State lookup and time stamp are one step in `HttpPairing`, and so are the janitor's look at one connection and its deletion; a sweep is one step for each connection, with anything in between.
- Overflow of the sum of position and bulk length near the largest machine integer in the Redis reader: lengths are mathematical integers there.
- Upper-casing of the Redis command name, Unicode and text encodings: Go strings are byte strings here.
- The textual form of IP addresses and the names of DNS record types and classes: the bytes and the numbers stand for them.
- DNS authority and additional sections: the code does not read them either.
- MD5 over the JA3 string and FNV over the flow: opaque hashes.
- Probe functions other than those of the fallback, SMTP and FTP: arbitrary scores in `Registry`.
- The SMTP, FTP, IMAP, POP3, SSH and WebSocket parsers: line splitting and prefix tests that would only add easy members.
- The dispatcher's event emission: in `Delivery` the consumer only takes messages and drives the HTTP parser; in `Channels` its sends are steps.
- Delivery.MarkerCleared: not for identifier 0, under which datagrams are parsed too.
- Delivery.ReuseStartsAtZero: not for identifier 0, for the same reason.
- Limits of the channels in `Channels`, and how many chunks and events a packet makes: left open there, so that every interleaving of the program is a run. The runs that show something can happen put at most one packet in a channel and take it out in the next step.
- DnsMessage.DataRecovered: says nothing of an MX record that does not hold a preference and a name; `FormatRData` then prints it in hexadecimal.
- HttpPairing.Pairing: assumes fewer than 2^64 messages per direction and lifetime, because the counters wrap there; PairingModulo has no such bound.
- Channels.ReturnsExactly: its positive half shows a shutdown that can be brought to its end, not that every one is, because a splitter may block on a full channel.
- Postgres.StartupSkipped: client data whose bytes 4 to 8 happen to be the startup version is skipped by the code as well.
