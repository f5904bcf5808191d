# Veidrodelis: a verified model of the path from the replication socket to the store

Veidrodelis keeps an in-process copy of a Valkey/Redis primary. A replication byte stream comes in
(a bulk header, an RDB snapshot, then RESP commands), two incremental parsers turn it into
commands, a projection applies them to a store with transaction markers and double buffering, and
readers query the store. This project models that path and proves what it keeps:

- **LZF** (`Lzf*.dfy`): compressor and decoder on arrays, against a byte-at-a-time reference
  decoder. What is compressed decompresses to the original for every content of the hash table.
- **RDB parser** (`Rdb*.dfy`): lengths, strings, listpacks, values, the resumable state machine,
  chunk independence, round trips of whole files, and the parser object that refines the machine.
- **Replication stream parser** (`Replica*.dfy`): header, payload, RESP commands, chunk
  independence with its exact condition, round trips, and the parser object.
- **Session** (`Session*.dfy`): chunks to parser to projection and the replication offset, the
  moment a new snapshot becomes readable, partial resynchronisation, and whole lives of a session
  as runs of the projection.
- **Projection** (`TsProj*.dfy`): transactions and double buffering over whole runs.
- **Transactions in plain octets** (`TxWindows.dfy`): what stands between a SET and a DEL of
  `__vdr_tx` is committed by one group.
- **Sorted sets** (`ZSet*.dfy`, `ZAdd.dfy`, `ZStore*.dfy`): two views kept equal by every write, and
  fast queries equal to naive ones; order, ranges, pops, options and weighted sums in real numbers
  and octets (`ZSetNumbers.dfy`, `ZStoreNumbers.dfy`).
- **Cursors** (`Cursors.dfy`) and **prefix watches** (`PrefixTree.dfy`).

The chain ends in `Session.SocketToStore`: any snapshot built from valid items, followed by any
commands, cut into chunks in any way, leaves in the readable store exactly the commands that were
sent, in order, up to a transaction that is still open.

Conventions. Pure transition functions (`Step`, `Run`, `Feed`, `Next`) carry the theorems; classes
(`RdbFeed.Parser`, `ReplicaFeed.Parser`, `TsProjProcess.Process`, `ZSetStorage.Storage`,
`PrefixTree.PrefixWatchTree`) update their fields step by step and are proved to refine them.
Unknown functions (float printing, the hash, command parsing, one storage command) are parameters,
so every theorem holds for all of them. What files, streams, orders and sums are compared with is
written in the octets and numbers themselves, not with the tables of the parsers or the comparison
functions of the store: `RdbSnapshot` has one constructor per value type, `ReplicaRequests` one per
kind of request. Lengths and offsets are natural numbers. Scores are
extended reals with infinities and NaN, ordered as `OrderedFloat` orders them.

## Findings

Properties that the code does not have, each with the exact condition under which it holds:

- A new snapshot becomes readable before the commands of the chunk that completes it are applied
  (`SessionSwap.SwapCompleteAt`, `SessionSwap.OneChunkHidesKey`), although
  `lib/veidrodelis/redis_stream/callback.ex:42-45` says it has been handled by then. It is complete
  exactly if a chunk ends between the last item that gives a command and the end of the payload.
- The replication offset misses the command octets in the chunk that completes the snapshot
  (`Session.OffsetExactly`, `Session.OneChunkOffsetShort`).
- A partial resynchronisation is right exactly if what the primary repeats, because it was not
  counted, brings the new parser to where the old one was without a data command
  (`SessionResume.SyncResumesExactly`). With a right offset this means: the connection broke between
  two commands while database 0 was selected; with a short one: the uncounted commands are no data
  commands and select the right database (`SessionResume.SyncResumesCommands`). A synchronisation in
  one chunk with its first commands applies all of them twice (`SessionResume.DoubledSync`).
- A partial resynchronisation that is granted while a snapshot is loaded never becomes readable
  (`SessionResume.ContinueWhileLoading`, `SessionRuns.LoadingReachable`).
- Watchers are notified of snapshot commands that readers cannot see, in every synchronisation but
  the first (`TsProj.NoticesUnreadableExactly`, `TsProj.SecondSnapshotAnnounced`), although a comment at
  `lib/veidrodelis/ts_proj.ex:405` says otherwise.
- A finished RDB parser rejects every further feed (`RdbChunks.ChunkIndependence`,
  `RdbSnapshot.ShortestEarlyFinish`, `ReplicaChunks.ChunkIndependenceExactly`,
  `ReplicaRoundTrip.EarlyEndHappens`).
- Negative 13-bit listpack integers are read as 16-bit strings (`RdbEncoding.Int13RoundTripExactly`,
  `RdbEncoding.NegativeInt13Read`).
- A listpack of more than 65535 entries loses the others without an error
  (`RdbEncoding.ListpackReadExactly`).
- ZRANGE clamps an out-of-range bound to an element (`ZSetQueries.ZrangeExactly`).
- ZADD with GT and LT is accepted and means NX (`ZAdd.GtLtSettles`); ZADD XX on a missing key stores
  an empty set (`ZAdd.EmptyExactly`).
- A `*STORE` command whose destination is one of its sources reads it as missing
  (`ZStores.SourcesUntouched`, `ZStores.AliasedUnionLoses`, `ZStores.AliasedScores`,
  `ZStores.AliasedIntersectionEmpty`, `ZStores.SelfUnionLosesMember`).
- ZREMRANGEBYLEX with inverted bounds panics in `BTreeMap::range`
  (`ZSetStorage.Storage.ZremRangeByLex`). A command that panics inside a transaction leaves half of it
  readable behind the recovered lock; readers see clean cuts exactly if none does
  (`TsProj.VisibleExactly`, `TsProj.PanicSplits`).
- ZPOPMIN and ZPOPMAX with count 0 pop nothing, although their comments say all
  (`ZSetStorage.HighestExactly`, `ZSetStorage.LowestExactly`).
- Compressed data is at most `len + ceil(len/32)` octets, and reaches that when all octets differ
  (`LzfCompressor.Compress`). So the 104% in `native/vdr_redis_nif/c_src/lzf.h:58` holds at some
  lengths only (`LzfOverhead.Below104Exactly`, `LzfOverhead.Reaches104`); one octet takes two.

## Model

| member | source | states |
|---|---|---|
| `LzfDecoder.Decompress` | native/vdr_redis_nif/c_src/lzf_d.c:68-187 | On arbitrary input the decoder returns exactly what the byte-at-a-time reference decoder gives, with the same error otherwise, and writes nothing outside the output |
| `LzfDecoder.CopyReference` | native/vdr_redis_nif/c_src/lzf_d.c:150-182 | The three copying paths (switch, disjoint block, overlapping loop) all append the same octets |
| `LzfDecoder.ReadReference` | native/vdr_redis_nif/c_src/lzf_d.c:109-144 | Length and distance of a back reference are read from the input only, with the error exits in order |
| `LzfFormat.DecodeAppend` | native/vdr_redis_nif/c_src/lzf_d.c:68-187 | Decoding a token stream followed by more tokens is decoding the first part and going on from its output |
| `LzfFormat.DecodeMoreRoom` | native/vdr_redis_nif/c_src/lzf_d.c:77-81 | A stream that decodes into a buffer decodes to the same octets in every larger one |
| `LzfFormat.DecodeFits` | native/vdr_redis_nif/c_src/lzf_d.c:134-138 | What is decoded never exceeds the room |
| `LzfFormat.CopyRepeats` | native/vdr_redis_nif/c_src/lzf_d.c:161-167 | A self-overlapping copy repeats the last octets periodically |
| `LzfFormat.CopyDisjoint` | native/vdr_redis_nif/c_src/lzf_d.c:155-160 | A copy that does not overlap is a block copy |
| `LzfCompressor.MatchLength` | native/vdr_redis_nif/c_src/lzf_c.c:181-222 | The unrolled loop finds a length within the maximum at which source and reference agree octet by octet, and stops only at a mismatch, the maximum or the last octets |
| `LzfCompressor.IsMatch` | native/vdr_redis_nif/c_src/lzf_c.c:162-178 | The guards accept a slot only if it points into earlier input, within the window, with three equal octets, whatever the slot held |
| `LzfCompressor.AddReference` | native/vdr_redis_nif/c_src/lzf_c.c:185-239 | Ending the run and writing the reference keeps: the closed output decodes to the input so far; it fails only without room |
| `LzfCompressor.AddLiteral` | native/vdr_redis_nif/c_src/lzf_c.c:276-287 | A literal extends the open run, whose header is patched when the run is full |
| `LzfCompressor.Compress` | native/vdr_redis_nif/c_src/lzf_c.c:147-307 | For every hash table content and hash function, a non-zero result decodes to exactly the input, fits the output, is at most len + ceil(len/32), exactly that when all octets differ, and a large enough output always succeeds |
| `LzfCompressor.RoundTrip` | native/vdr_redis_nif/c_src/lzf_c.c:147-307 | Compressing and decompressing into any buffer of at least the original length gives back the original |
| `LzfOverhead.DifferentOctetsCost` | native/vdr_redis_nif/c_src/lzf_d.c:68-187 | Every stream that decodes to octets that all differ has at least len + ceil(len/32) octets |
| `LzfOverhead.Below104Exactly` | native/vdr_redis_nif/c_src/lzf.h:57-58 | The worst size is below 104% of the length if and only if the length is 26 to 32, 51 to 64, 76 to 96 or at least 101 |
| `LzfOverhead.Reaches104` | native/vdr_redis_nif/c_src/lzf.h:57-58 | At every other length an input exists that no stream of this format represents below 104% |
| `LzfOverhead.OneOctetDoubles` | native/vdr_redis_nif/c_src/lzf.h:57-58 | For instance every stream for one octet has at least two |
| `RdbString.StringAgrees` | native/vdr_redis_nif/src/rdb.rs:556-749 | If the size calculation says n and n octets are there, the string loader reports an error or consumes exactly n octets |
| `RdbString.StringEndStable` | native/vdr_redis_nif/src/rdb.rs:556-602 | The size calculation is unchanged by octets that arrive later |
| `RdbString.LoadStringStable` | native/vdr_redis_nif/src/rdb.rs:616-749 | So is the loader, which leaves the later octets alone |
| `RdbString.FourOctets` | native/vdr_redis_nif/src/rdb.rs:629-663 | Four octets as little-endian and big-endian numbers |
| `RdbString.LittleEndianAppend` | native/vdr_redis_nif/src/rdb.rs:329-346 | Each later octet of a little-endian number counts 256 times as much |
| `RdbString.LengthRefused` | native/vdr_redis_nif/src/rdb.rs:753-816 | A first octet from 0x82 to 0xBF is no length, one from 0xC0 on a special encoding, and no others are refused |
| `RdbEncoding.LengthRoundTrip` | native/vdr_redis_nif/src/rdb.rs:753-816 | Every length below 2^64 is read back from each of its forms, with its octet count, under any suffix |
| `RdbEncoding.StringRoundTrip` | native/vdr_redis_nif/src/rdb.rs:616-749 | Plain, integer and LZF strings load to the string that is meant and leave the suffix |
| `RdbEncoding.EntryRoundTrip` | native/vdr_redis_nif/src/rdb.rs:1399-1568 | Every accepted listpack entry form is read back with its back length |
| `RdbEncoding.ListpackRoundTrip` | native/vdr_redis_nif/src/rdb.rs:1354-1397 | A listpack of accepted entries parses to exactly its entries |
| `RdbEncoding.ListpackReadExactly` | native/vdr_redis_nif/src/rdb.rs:1354-1397 | A listpack of any length is read completely if and only if it has at most 65535 entries; otherwise its first 65535 are read, because the count 0xFFFF is taken literally |
| `RdbEncoding.IntsetRoundTrip` | native/vdr_redis_nif/src/rdb.rs:1275-1336 | An integer set of width 2, 4 or 8 parses to exactly its members, in order |
| `RdbEncoding.Int13RoundTripExactly` | native/vdr_redis_nif/src/rdb.rs:1434-1460 | A 13-bit integer is read back if and only if it is not negative |
| `RdbEncoding.NegativeInt13Fails` | native/vdr_redis_nif/src/rdb.rs:1453-1460 | Concretely, -1 is not |
| `RdbEncoding.NegativeInt13Read` | native/vdr_redis_nif/src/rdb.rs:1453-1460 | What a negative one is read as: a string of 256 times its second octet plus 2 octets, or an error if they are not there |
| `RdbListpack.BacklenSize` | native/vdr_redis_nif/src/rdb.rs:1339-1351 | The back length takes the fewest octets of seven bits that hold the entry size, at most five |
| `RdbListpack.ReadListpack` | native/vdr_redis_nif/src/rdb.rs:1354-1397 | The loop over entries computes the recursive reading |
| `RdbListpack.ReadIntset` | native/vdr_redis_nif/src/rdb.rs:1275-1336 | So does the loop over the members of an integer set |
| `Decimal.IntTextInjective` | native/vdr_redis_nif/src/rdb.rs:629-663 | Different integers print differently, so integer strings keep their value |
| `Decimal.ParseExactly` | native/vdr_redis_nif/src/replica.rs:231-260 | A number is read if and only if the text is decimal digits, optionally after a plus sign, and not too large; its value is the sum of the place values |
| `Decimal.NatTextDecimal` | native/vdr_redis_nif/src/rdb.rs:629-663 | A number is written in decimal places without a leading zero |
| `Decimal.IntTextDecimal` | native/vdr_redis_nif/src/rdb.rs:629-663 | A minus sign stands before the places of a negative one |
| `RdbValue.CalculateValueEnd` | native/vdr_redis_nif/src/rdb.rs:423-554 | The accumulator loops compute the end of a value for every value type |
| `RdbFeed.Parser.TakeString` | native/vdr_redis_nif/src/rdb.rs:616-749 | Every branch of the string loader consumes and returns what the format says, and nothing when data is missing |
| `RdbFeed.Parser.TakePacked` | native/vdr_redis_nif/src/rdb.rs:664-711 | An LZF string is consumed only when both lengths and all its octets are there |
| `RdbFeed.Decompress` | native/vdr_redis_nif/src/rdb.rs:1227-1257 | The wrapper runs the C decoder on arrays and insists on the announced size |
| `RdbFeed.Parser.TakeElements` | native/vdr_redis_nif/src/rdb.rs:883-1101 | The element loops of the loaders consume the buffer as the recursive reading says |
| `RdbFeed.StringObject` | native/vdr_redis_nif/src/rdb.rs:1013-1223 | Values kept in one string: the listpack, integer set and pair loops give the command of the specification |
| `RdbFeed.Parser.LoadObject` | native/vdr_redis_nif/src/rdb.rs:818-862 | The loader chosen by the value type consumes and returns what the specification says |
| `RdbValue.ValueAgrees` | native/vdr_redis_nif/src/rdb.rs:423-554 | Peek and load agree for every value type, element count and mix of strings: with all calculated octets there, the loader errs or consumes exactly those |
| `RdbValue.ValueEndStable` | native/vdr_redis_nif/src/rdb.rs:423-554 | The size of a value does not change when octets are appended |
| `RdbValue.ValueStable` | native/vdr_redis_nif/src/rdb.rs:818-1223 | Nor does what the loader makes of it |
| `RdbParser.StepDecreases` | native/vdr_redis_nif/src/rdb.rs:123-138 | Every transition decreases bytes left and state rank lexicographically, also the skip path that consumes nothing |
| `RdbParser.MagicExactly` | native/vdr_redis_nif/src/rdb.rs:182-221 | Accepted are exactly REDIS with a version from 1 to 12 in four places and VALKEY with one from 80 to 999 in three; which of the three errors the rest gives |
| `RdbChunks.StepStable` | native/vdr_redis_nif/src/rdb.rs:168-419 | A transition that makes progress makes the same progress on every extension of the buffer |
| `RdbChunks.RunSplit` | native/vdr_redis_nif/src/rdb.rs:104-143 | Running on a+b is running on a and then with b, unless a finished the parser |
| `RdbChunks.FeedSplit` | native/vdr_redis_nif/src/rdb.rs:104-143 | feed(a) then feed(b) is feed(a+b), errors included, unless a finished the parser |
| `RdbChunks.ChunkIndependence` | native/vdr_redis_nif/src/rdb.rs:104-143 | Chunked and whole feeding agree if and only if the parser does not finish before the last chunk |
| `RdbChunks.EarlyFinishSucceeds` | native/vdr_redis_nif/src/rdb.rs:107-109 | If it does, whole feeding succeeds where chunked feeding is rejected |
| `RdbChunks.TightNotEarly` | native/vdr_redis_nif/src/rdb.rs:104-143 | A file that ends with its data never finishes before its last non-empty chunk |
| `RdbFeed.Parser.FeedData` | native/vdr_redis_nif/src/rdb.rs:104-143 | The parser object computes the feed of the state machine: commands, error and new state |
| `RdbFeed.Parser.ParseMagic` | native/vdr_redis_nif/src/rdb.rs:182-221 | The magic state refines its transition |
| `RdbFeed.Parser.ParseOpcode` | native/vdr_redis_nif/src/rdb.rs:237-267 | So does the opcode state |
| `RdbFeed.Parser.ProcessOpcode` | native/vdr_redis_nif/src/rdb.rs:281-349 | An opcode refines its transition and goes on with the next state, or waits without consuming anything |
| `RdbFeed.Parser.TakeSelectDb` | native/vdr_redis_nif/src/rdb.rs:283-290 | SELECTDB loads a length, truncated to 32 bits |
| `RdbFeed.Parser.TakeResizeDb` | native/vdr_redis_nif/src/rdb.rs:291-307 | RESIZEDB peeks at both lengths before it consumes them |
| `RdbFeed.Parser.TakeAux` | native/vdr_redis_nif/src/rdb.rs:308-328 | AUX sizes both strings before it consumes them, after which neither load lacks data |
| `RdbFeed.Parser.TakeExpire` | native/vdr_redis_nif/src/rdb.rs:329-346 | Expiry times in seconds and milliseconds |
| `RdbFeed.Parser.ProcessKey` | native/vdr_redis_nif/src/rdb.rs:269-279 | So does reading a key |
| `RdbFeed.Parser.ParseValue` | native/vdr_redis_nif/src/rdb.rs:351-419 | A value is loaded by its loops, and only when its calculated size is there; PEXPIREAT follows its commands; a value of unknown size is skipped |
| `RdbFeed.Parser.ParseChecksum` | native/vdr_redis_nif/src/rdb.rs:223-235 | Eight octets end the file |
| `RdbSnapshot.ValueRoundTrip` | native/vdr_redis_nif/src/rdb.rs:423-1223 | A value of each type octet (0, 4, 5, 11, 16, 17, 18, 20, 22), written in the octets of the format, has the calculated size and loads to the command SET, HSET, ZADD, SADD or RPUSH with exactly its contents |
| `RdbSnapshot.OtherTypesRefused` | native/vdr_redis_nif/src/rdb.rs:547-551 | Every other type octet is an unknown type |
| `RdbSnapshot.OddPacksRefused` | native/vdr_redis_nif/src/rdb.rs:1013-1223 | A packed hash or sorted set with an odd number of entries is refused |
| `RdbSnapshot.OtherEntriesRefused` | native/vdr_redis_nif/src/rdb.rs:1354-1568 | Listpack entries that start with an octet from 0xF5 on are unknown, but 0xFF ends the listpack |
| `RdbSnapshot.OtherWidthsRefused` | native/vdr_redis_nif/src/rdb.rs:1275-1336 | Integer sets of a width other than 2, 4 and 8 are refused unless they are empty |
| `RdbWire.ContentsLoad` | native/vdr_redis_nif/src/rdb.rs:1013-1223 | Listpack and integer-set values give the command with their entries or members, scores before members for sorted sets |
| `RdbWire.ElementArgsMeaning` | native/vdr_redis_nif/src/rdb.rs:883-1101 | Elements of counted values give score and member, list entries, or field and value |
| `RdbSnapshot.ItemRoundTrip` | native/vdr_redis_nif/src/rdb.rs:237-419 | An item of a file moves the parser to the next item with exactly its commands |
| `RdbSnapshot.FileRoundTrip` | native/vdr_redis_nif/src/rdb.rs:104-419 | A file of valid items, with the opcodes 250 to 255 and an accepted magic, parses to the commands of its items, each in its database and with its PEXPIREAT |
| `RdbSnapshot.ChunkedFileRoundTrip` | native/vdr_redis_nif/src/rdb.rs:104-419 | So it does however it is cut into non-empty chunks |
| `RdbSnapshot.EmptyChunkRejected` | native/vdr_redis_nif/src/rdb.rs:107-109 | An empty chunk after a whole file is rejected, though both together are accepted |
| `RdbSnapshot.ShortestEarlyFinish` | native/vdr_redis_nif/src/rdb.rs:107-109 | For instance after a file without items |
| `ReplicaStream.FindCrlf` | native/vdr_redis_nif/src/replica.rs:331-337 | The position is that of the first CR LF, and none is missed |
| `ReplicaChunks.CommandStable` | native/vdr_redis_nif/src/replica.rs:215-326 | Parsing a command is unaffected by later octets once it is complete, malformed or skipped line ends |
| `ReplicaChunks.RdbIsLawful` | native/vdr_redis_nif/src/rdb.rs:104-143 | The RDB parser meets what the stream parser needs of an embedded parser |
| `ReplicaChunks.RunSplit` | native/vdr_redis_nif/src/replica.rs:82-110 | Running on more data is running without it and then with it, unless the snapshot ended early |
| `ReplicaChunks.ChunkIndependence` | native/vdr_redis_nif/src/replica.rs:82-326 | Any cut of header, payload and commands gives the same commands, the disjunction of the flags and the same final state or error |
| `ReplicaChunks.EarlyEndRejected` | native/vdr_redis_nif/src/replica.rs:163-212 | Data after an early end of the snapshot is rejected |
| `ReplicaChunks.ChunkIndependenceExactly` | native/vdr_redis_nif/src/replica.rs:82-326 | If whole feeding succeeds, chunked feeding agrees with it if and only if no data follows an early end of the snapshot |
| `ReplicaRoundTrip.NumberRoundTrip` | native/vdr_redis_nif/src/replica.rs:231-239 | A decimal number up to CR LF is read back if it is below 2^64, and refused otherwise |
| `ReplicaRoundTrip.ArrayRoundTrip` | native/vdr_redis_nif/src/replica.rs:225-278 | An array of arbitrary binary strings is read back, under any suffix |
| `ReplicaRoundTrip.RespRoundTrip` | native/vdr_redis_nif/src/replica.rs:215-326 | Any list of requests, of every kind and spelling, yields exactly its data requests, each with the number of the last selection before it, the two flags, and an empty buffer |
| `ReplicaRoundTrip.DbOfCommand` | native/vdr_redis_nif/src/replica.rs:289-298 | The database of a data request is that of the last selection before it, or the initial one |
| `ReplicaRequests.RequestAgrees` | native/vdr_redis_nif/src/replica.rs:280-325 | Selections change the database only, pings and acknowledgement requests their flag only, other configuration requests nothing, and data requests are passed on |
| `ReplicaRequests.EveryArray` | native/vdr_redis_nif/src/replica.rs:280-325 | Every array of strings is one of these requests |
| `ReplicaRequests.SpellsExactly` | native/vdr_redis_nif/src/replica.rs:286 | A name is recognised if and only if it spells the word in capital or small letters, the long s and the dotless i included |
| `ReplicaRoundTrip.NumberExactly` | native/vdr_redis_nif/src/replica.rs:231-260 | Any line is read as the 64-bit number that it shows, and as none if it shows none |
| `ReplicaRoundTrip.BadHeaderRefused` | native/vdr_redis_nif/src/replica.rs:122-135 | A header without a dollar sign is refused with its own error |
| `ReplicaRoundTrip.BadSizeRefused` | native/vdr_redis_nif/src/replica.rs:137-142 | So is one whose size is no number |
| `ReplicaRoundTrip.BadRequestRefused` | native/vdr_redis_nif/src/replica.rs:225-228 | And a request without a star |
| `ReplicaRoundTrip.BadCountRefused` | native/vdr_redis_nif/src/replica.rs:231-239 | And one whose count is no number |
| `ReplicaRoundTrip.BadItemRefused` | native/vdr_redis_nif/src/replica.rs:245-252 | And an item without a dollar sign, after any good items |
| `ReplicaRoundTrip.BadLengthRefused` | native/vdr_redis_nif/src/replica.rs:254-263 | And one whose length is no number |
| `ReplicaRoundTrip.StreamRun` | native/vdr_redis_nif/src/replica.rs:82-326 | The embedded parser gets exactly the announced octets and whatever follows is read as commands |
| `ReplicaRoundTrip.SyncRoundTrip` | native/vdr_redis_nif/src/replica.rs:82-326 | In particular encoded commands after the payload come out as data commands |
| `ReplicaRoundTrip.NeverStuck` | native/vdr_redis_nif/src/replica.rs:163-212 | No prefix of such a stream leaves the embedded parser finished ahead of its payload |
| `ReplicaRoundTrip.ChunkedStream` | native/vdr_redis_nif/src/replica.rs:82-326 | However a synchronisation and any octets after it are cut, the result is that of the whole |
| `ReplicaRoundTrip.ChunkedSync` | native/vdr_redis_nif/src/replica.rs:82-326 | In particular for encoded commands |
| `ReplicaRoundTrip.FullSync` | native/vdr_redis_nif/src/replica.rs:82-326 | Any snapshot of valid items and any commands after it, cut in any way, come out as exactly their commands |
| `ReplicaRoundTrip.EarlyEndHappens` | native/vdr_redis_nif/src/replica.rs:163-212 | A payload announced longer than its file ends early when cut at the end of the file, and is accepted in one piece |
| `ReplicaFeed.Parser.FeedData` | native/vdr_redis_nif/src/replica.rs:82-110 | The parser object computes the feed of the state machine: commands, flags, error and new state |
| `ReplicaFeed.Parser.TakeHeader` | native/vdr_redis_nif/src/replica.rs:122-160 | The header is taken once its line is complete, and the RDB parser is started |
| `ReplicaFeed.Parser.TakePayload` | native/vdr_redis_nif/src/replica.rs:163-212 | The RDB parser gets what there is of its payload and nothing beyond |
| `ReplicaFeed.Parser.TakeCommand` | native/vdr_redis_nif/src/replica.rs:215-326 | One complete command is taken; an incomplete one leaves the buffer, but for line ends |
| `ReplicaFeed.Parser.Dispatch` | native/vdr_redis_nif/src/replica.rs:280-325 | SELECT, PING and REPLCONF change the parser, other commands are passed on with the database |
| `ReplicaFeed.ParseElements` | native/vdr_redis_nif/src/replica.rs:241-275 | The cursor loop computes the recursive reading of the elements |
| `Session.OnDataAllInStep` | lib/veidrodelis/redis_stream/replica.ex:1068-1149 | Whatever the chunks, the projection receives exactly the commands the parser reports, in order |
| `Session.SocketToStore` | lib/veidrodelis/redis_stream/replica.ex:1068-1149 | From socket to store: the readable store holds the commands of snapshot and stream, in order, up to an open transaction, for every cut into chunks |
| `Session.SwapCompleteExactly` | lib/veidrodelis/redis_stream/replica.ex:1109-1130 | In any state: the store holds the whole snapshot when it becomes readable if and only if the completing chunk contributes no snapshot command and no transaction is open |
| `Session.OneChunkSwapsEmpty` | lib/veidrodelis/redis_stream/replica.ex:1109-1130 | A synchronisation in one chunk makes an empty store readable first |
| `SessionSwap.PartialItem` | native/vdr_redis_nif/src/rdb.rs:237-419 | An item that has not arrived completely gives no command |
| `SessionSwap.FilePrefix` | native/vdr_redis_nif/src/rdb.rs:104-419 | A prefix of a file delivers a beginning of its commands, and all of them if and only if it reaches the end of the last item that gives one |
| `SessionSwap.SnapshotPrefix` | native/vdr_redis_nif/src/replica.rs:122-212 | So does a prefix of the stream that ends before the payload does |
| `SessionSwap.SwapCompleteAt` | lib/veidrodelis/redis_stream/replica.ex:1109-1130 | For every cut into chunks: the store is complete when it becomes readable if and only if the chunk before the completing one ends at or after the last item that gives a command, and the snapshot ends outside a transaction |
| `SessionSwap.OneChunkHidesKey` | lib/veidrodelis/redis_stream/replica.ex:1109-1130 | A snapshot with one key that arrives in one chunk: readers find a ready store without the key |
| `Session.OffsetExactly` | lib/veidrodelis/redis_stream/replica.ex:1090-1098 | After a synchronisation and any octets of the command stream, the offset counts those octets if and only if a chunk ended where the payload did; otherwise it is short by the ones in the completing chunk |
| `Session.OneChunkOffsetShort` | lib/veidrodelis/redis_stream/replica.ex:1090-1098 | A synchronisation in one chunk counts none of its commands |
| `SessionResume.ResumeExactly` | lib/veidrodelis/redis_stream/replica.ex:1050-1064 | For all later octets the new parser delivers the same commands and ends in the same state as the old one would have, if and only if what is repeated brings it to where the old one was without a data command |
| `SessionResume.CommandsTellExactly` | lib/veidrodelis/redis_stream/replica.ex:1050-1064 | If the connection broke between two commands, comparing the delivered commands alone gives the same condition |
| `SessionResume.RejoinsNothing` | lib/veidrodelis/redis_stream/replica.ex:1050-1064 | With nothing repeated the condition is: no octets held and database 0 selected |
| `SessionResume.RejoinsCommands` | lib/veidrodelis/redis_stream/replica.ex:1050-1064 | With whole commands and the held beginning of one repeated: no data command among them, and they select the right database |
| `SessionResume.TooLittleRepeated` | lib/veidrodelis/redis_stream/replica.ex:1050-1064 | If less is repeated than was held, it fails |
| `SessionResume.RepeatedOctetFails` | lib/veidrodelis/redis_stream/replica.ex:801-821 | A repeated octet that is neither a line end nor an asterisk makes the new parser fail at once |
| `SessionResume.SyncResumesExactly` | lib/veidrodelis/redis_stream/replica.ex:1050-1098 | A synchronisation and any octets of the command stream, cut into chunks, then a break and a resumption at the counted offset: right if and only if the uncounted octets rejoin |
| `SessionResume.SyncResumesCommands` | lib/veidrodelis/redis_stream/replica.ex:1050-1098 | In terms of the stream: right if and only if the uncounted commands hold no data command and select the database that the whole stream has selected |
| `SessionResume.ResumedSession` | lib/veidrodelis/redis_stream/replica.ex:1068-1149 | Then the store holds what it would hold without the break, for any chunks |
| `SessionResume.DoubledSync` | lib/veidrodelis/redis_stream/replica.ex:1090-1098 | A synchronisation in one chunk with its first commands, resumed: the projection receives each of them twice |
| `SessionResume.ContinueWhileLoading` | lib/veidrodelis/redis_stream/replica.ex:1050-1064 | A partial resynchronisation granted while a snapshot is loaded never changes the readable store |
| `SessionResume.ContinueWhileServing` | lib/veidrodelis/redis_stream/replica.ex:1050-1064 | Granted later, everything that arrives is served, up to an open transaction |
| `SessionRuns.LifeIsRun` | lib/veidrodelis/redis_stream/replica.ex:1024-1149 | Every life of a session, with disconnects, full and partial resynchronisations and chunks in any order, is a run of the projection that ends in the same state |
| `SessionRuns.ReadersSeeCleanCuts` | lib/veidrodelis/redis_stream/replica.ex:1068-1149 | So at any time in it readers see received commands up to a cut that splits no transaction, as long as no storage command panics |
| `SessionRuns.TransactionsWhole` | lib/veidrodelis/redis_stream/replica.ex:1068-1149 | In every life, a transaction among the served commands is committed by one group, from its SET to its DEL, or not at all |
| `SessionRuns.LifeInStep` | lib/veidrodelis/redis_stream/replica.ex:1068-1149 | What the parsers delivered since the last full resynchronisation is committed or buffered, once and in order |
| `SessionRuns.ChunkReceived` | lib/veidrodelis/redis_stream/replica.ex:1068-1149 | A chunk adds to that exactly what the parser makes of it |
| `SessionRuns.ChunkingIrrelevant` | lib/veidrodelis/redis_stream/replica.ex:1068-1149 | Lives that received the same commands hold the same, however they were cut |
| `SessionRuns.ReadableFrozen` | lib/veidrodelis/redis_stream/replica.ex:1024-1149 | While a snapshot is loaded, through disconnects and partial resynchronisations, the readable store does not change until a chunk completes it |
| `SessionRuns.FullKeepsReadable` | lib/veidrodelis/redis_stream/replica.ex:1024-1044 | A full resynchronisation itself changes nothing for readers |
| `SessionRuns.HeldOctetReachable` | lib/veidrodelis/redis_stream/replica.ex:1068-1149 | A session with an octet of a command in its parser |
| `SessionRuns.OtherDbReachable` | lib/veidrodelis/redis_stream/replica.ex:1068-1149 | A session with any other database selected |
| `SessionRuns.LoadingReachable` | lib/veidrodelis/redis_stream/replica.ex:1024-1064 | A partial resynchronisation granted while a snapshot is loaded |
| `TsProj.ProcessTracks` | lib/veidrodelis/ts_proj.ex:131-164 | Each command keeps: committed plus buffered is received, the window flag is right, no commit splits a transaction |
| `TsProj.RunInStep` | lib/veidrodelis/ts_proj.ex:91-164 | In every reachable state, for any batching: conservation since the last replication start, the buffer holds exactly the open transaction, and every commit boundary is clean |
| `TsProj.CommittedExactly` | lib/veidrodelis/ts_proj.ex:121-164 | The committed commands are the received ones up to a transaction that is still open |
| `TsProj.BatchingIrrelevant` | lib/veidrodelis/ts_proj.ex:121-128 | Equal received commands give equal committed commands and buffer, however they were batched |
| `TsProj.ReadersSeeCleanCuts` | lib/veidrodelis/ts_proj.ex:121-164 | Every commit boundary of the readable store is a prefix of the received commands that splits no transaction |
| `TsProj.EffectiveExactly` | native/vdr_ts_nif/src/lib.rs:181-189 | A store holds the result of the commands before the first one that panics, and of all if none does |
| `TsProj.VisibleExactly` | native/vdr_ts_nif/src/lib.rs:166-205 | What readers really see, panics included, is the result of a prefix of the received commands, and splits no transaction if and only if no committed command panics inside one |
| `TsProj.PanicSplits` | native/vdr_ts_nif/src/lib.rs:181-205 | A transaction whose third command panics: readers see its first two |
| `TsProj.ReadableFrozen` | lib/veidrodelis/ts_proj.ex:291-300 | From a replication start to the next streaming start the readable store does not change |
| `TsProj.SwapServesSnapshot` | lib/veidrodelis/ts_proj.ex:96-118 | After the swap it is exactly the settled commands of the new replication |
| `TsProj.ReadyExactly` | lib/veidrodelis/ts_proj.ex:96-118 | Reads are accepted from the first streaming start on |
| `TsProj.BatchCommits` | lib/veidrodelis/ts_proj.ex:121-128 | What is announced for a batch is exactly what it commits, once and in order |
| `TsProj.NoticesUnreadableExactly` | lib/veidrodelis/ts_proj.ex:403-406 | In any run, a batch that commits something announces commands that readers cannot see if and only if a snapshot other than the first is being loaded |
| `TsProj.SecondSnapshotAnnounced` | lib/veidrodelis/ts_proj.ex:403-406 | For instance any command in the second synchronisation, before its snapshot is complete |
| `TsProj.ConvertExactly` | lib/veidrodelis/ts_proj.ex:324-328 | Exactly the unknown commands are dropped, FLUSHALL and SWAPDB lose their database, and every other command keeps its place |
| `TxWindows.OpenExactly` | lib/veidrodelis/ts_proj.ex:131-164 | A transaction is open if and only if there is a SET of the octets `__vdr_tx` with no later DEL that has them among its keys |
| `TxWindows.SettledExactly` | lib/veidrodelis/ts_proj.ex:131-164 | Held back is what stands from the last such SET on, if it is not closed, and nothing otherwise |
| `TxWindows.CleanCutExactly` | lib/veidrodelis/ts_proj.ex:131-164 | A cut is clean if and only if it does not come after an opening that is not closed, unless a new one follows |
| `TxWindows.WholeOrNothing` | lib/veidrodelis/ts_proj.ex:131-164 | A clean cut has a whole transaction before it, or nothing of it |
| `TxWindows.TransactionsInOneGroup` | lib/veidrodelis/ts_proj.ex:121-164 | In every run a transaction among the served commands is committed by one group, from the command that opens it to the one that closes it, or not at all |
| `TxWindows.CommittedInOneGroup` | lib/veidrodelis/ts_proj.ex:121-164 | A complete transaction among the received commands is committed by one group of the store they go to |
| `TxWindows.HeldBackExactly` | lib/veidrodelis/ts_proj.ex:121-164 | After each event everything is committed but the commands from an opening that is not closed |
| `TxWindows.VisibleWindows` | native/vdr_ts_nif/src/lib.rs:166-205 | With panics: readers see part of a transaction if and only if the command that panics stands inside one |
| `TsProjProcess.Store.Tx` | native/vdr_ts_nif/src/lib.rs:166-189 | The commands of a group are executed under one lock up to one that panics; the contents are the replay of everything sent, and the lock is poisoned exactly after a panic |
| `TsProjProcess.Handle.Read` | native/vdr_ts_nif/src/lib.rs:191-216 | A read takes a poisoned lock, too, and sees what was executed before the panic |
| `TsProjProcess.Process.FlushTxBuffer` | lib/veidrodelis/ts_proj.ex:333-368 | The buffer becomes one transaction, in arrival order, without unsupported commands, and is announced when ready; a panic ends the process and leaves the group sent |
| `TsProjProcess.Process.ProcessSingleCommand` | lib/veidrodelis/ts_proj.ex:131-164 | Refines the transition for one command, and announces exactly what it commits, unless it panics |
| `TsProjProcess.Process.HandleCommands` | lib/veidrodelis/ts_proj.ex:121-128 | Succeeds if and only if no command that the batch commits panics; then it refines the transition for the batch and announces exactly what it commits |
| `TsProjProcess.Process.HandleReplicationStart` | lib/veidrodelis/ts_proj.ex:91-93 | A new store is set aside, and the readable one and its handle stay |
| `TsProjProcess.Process.HandleStreamingStart` | lib/veidrodelis/ts_proj.ex:96-118 | The new store becomes the readable one, and the registry hands it out |
| `TsProjProcess.Process.ReadTx` | lib/veidrodelis/ts_proj.ex:308-315 | A reader gets the replay of what was committed to the readable store, or nothing before the first synchronisation |
| `ZSetOrder.CmpFlips` | native/vdr_ts_nif/src/storage/zset_index.rs:106-196 | Comparing the other way round mirrors the answer, for stored keys and every probe |
| `ZSetOrder.CmpEqual` | native/vdr_ts_nif/src/storage/zset_index.rs:47-96 | Stored keys are equal in the order only if they are the same |
| `ZSetOrder.ProbeCuts` | native/vdr_ts_nif/src/storage/zset_index.rs:106-196 | Every probe cuts the stored keys in one place |
| `ZSetOrder.OctetOrder` | native/vdr_ts_nif/src/storage/zset_index.rs:176-192 | A member is smaller if it is a proper prefix or has the smaller octet at the first difference |
| `ZSetNumbers.IndexAscends` | native/vdr_ts_nif/src/storage/zset_index.rs:176-192 | The index ascends by number, with negative infinity first and positive infinity and NaN last, and at equal scores by octets |
| `ZSetNumbers.RankCountsSmaller` | native/vdr_ts_nif/src/storage/zsets.rs:306-365 | ZRANK counts the pairs that are smaller in numbers and octets, ZREVRANK the larger ones; other members have no rank |
| `ZSetNumbers.ScoreRangeNumbers` | native/vdr_ts_nif/src/storage/zsets.rs:257-404 | ZRANGEBYSCORE gives exactly the pairs whose score is a number from min to max, ascending, and ZCOUNT their number |
| `ZSetNumbers.ZrangeNumbers` | native/vdr_ts_nif/src/storage/zsets.rs:218-252 | ZRANGE goes from the one position to the other: counted from the front or the back, the nearest one if there is none |
| `ZSetNumbers.PopsHighest` | native/vdr_ts_nif/src/storage/zsets.rs:593-628 | ZPOPMAX removes min(count, size) members, each above all that stay |
| `ZSetNumbers.PopsLowest` | native/vdr_ts_nif/src/storage/zsets.rs:630-665 | ZPOPMIN removes as many, each below all that stay |
| `ZSetNumbers.ScoreBounds` | native/vdr_ts_nif/src/storage/zsets.rs:780-800 | ZREMRANGEBYSCORE: an included bound may be met, an excluded one must be passed |
| `ZSetNumbers.LexBounds` | native/vdr_ts_nif/src/storage/zsets.rs:847-868 | ZREMRANGEBYLEX: the same in octets, and which bounds panic |
| `ZSetNumbers.AcceptedExactly` | native/vdr_ts_nif/src/storage/zsets.rs:45-58 | ZADD accepts exactly NX with CH and INCR or no NX, and INCR with one pair only |
| `ZSetNumbers.GtNumbers` | native/vdr_ts_nif/src/storage/zsets.rs:100-105 | With GT a named member ends at a score that it had or was given, and no such number is larger |
| `ZSetNumbers.LtNumbers` | native/vdr_ts_nif/src/storage/zsets.rs:107-110 | With LT no such number is smaller |
| `ZSetNumbers.PlainIsLast` | native/vdr_ts_nif/src/storage/zsets.rs:78-120 | Without options the last score wins |
| `ZSetNumbers.IncrNumbers` | native/vdr_ts_nif/src/storage/zsets.rs:93-120 | With INCR the new score is the real sum, from zero for a new member, unless an option forbids it |
| `ZSetNumbers.IncrInfinite` | native/vdr_ts_nif/src/storage/zsets.rs:407-453 | Infinities absorb numbers; opposite ones and NaN give NaN |
| `ZSetIndex.RankCuts` | native/vdr_ts_nif/src/storage/zsets.rs:325-328 | The keys below a probe are exactly the first rank ones |
| `ZSetIndex.InsertSorted` | native/vdr_ts_nif/src/storage/zsets.rs:117-119 | Insertion keeps the index strictly sorted and adds exactly the key |
| `ZSetIndex.RemoveSorted` | native/vdr_ts_nif/src/storage/zsets.rs:112-114 | Removal keeps it strictly sorted and removes exactly the key that the probe equals |
| `ZSets.PutConsistent` | native/vdr_ts_nif/src/storage/zsets.rs:100-119 | Setting a score keeps index and entries equal |
| `ZSets.DropConsistent` | native/vdr_ts_nif/src/storage/zsets.rs:140-147 | So does removing a member |
| `ZSets.RunConsistent` | native/vdr_ts_nif/src/storage/zsets.rs:78-152 | After any run of edits the index is exactly the sorted pairs of the entries, which are what the edits alone say |
| `ZSets.ConsistentUnique` | native/vdr_ts_nif/src/storage/types.rs:37-49 | Entries determine a consistent set, index included |
| `ZSets.IndexLength` | native/vdr_ts_nif/src/storage/types.rs:32-34 | Both views have the same size |
| `ZSetStorage.CloneSet` | native/vdr_ts_nif/src/storage/types.rs:37-49 | Rebuilding from the entries, in any order, gives back the same set |
| `ZSetStorage.FromEntries` | native/vdr_ts_nif/src/storage/zsets.rs:939-955 | Inserting a hash map in any order gives the consistent set with those entries |
| `ZSetStorage.RemoveKeys` | native/vdr_ts_nif/src/storage/zsets.rs:720-725 | The removal loop takes exactly the collected members out of both views |
| `ZSetStorage.PopHighest` | native/vdr_ts_nif/src/storage/zsets.rs:609-621 | Popping from the end keeps the lower part of the index and drops exactly the members above |
| `ZSetStorage.PopLowest` | native/vdr_ts_nif/src/storage/zsets.rs:646-658 | Popping from the front mirrors it |
| `ZSetStorage.Storage.Zadd` | native/vdr_ts_nif/src/storage/zsets.rs:20-123 | Option errors in order, WRONGTYPE, and otherwise the fold of the pairs over the entries; nothing else in the store changes |
| `ZSetStorage.Storage.Zincrby` | native/vdr_ts_nif/src/storage/zsets.rs:407-453 | Adds to the old score or to zero, under both views |
| `ZSetStorage.Storage.Zrem` | native/vdr_ts_nif/src/storage/zsets.rs:126-155 | Exactly the named members go; an emptied key is removed |
| `ZSetStorage.Storage.Zpopmax` | native/vdr_ts_nif/src/storage/zsets.rs:593-628 | The count highest members go, or all there are |
| `ZSetStorage.Storage.Zpopmin` | native/vdr_ts_nif/src/storage/zsets.rs:630-665 | The count lowest members go, or all there are |
| `ZSetStorage.HighestExactly` | native/vdr_ts_nif/src/storage/zsets.rs:593-621 | ZPOPMAX takes all members if and only if the count reaches the size, and none if and only if the count is zero or the set empty |
| `ZSetStorage.LowestExactly` | native/vdr_ts_nif/src/storage/zsets.rs:630-658 | So does ZPOPMIN |
| `ZSetStorage.Storage.ZremRangeByRank` | native/vdr_ts_nif/src/storage/zsets.rs:667-733 | Exactly the members that ZRANGE returns go |
| `ZSetStorage.Storage.ZremRangeByScore` | native/vdr_ts_nif/src/storage/zsets.rs:735-824 | Exactly the members between the bounds go, however far the range overruns |
| `ZSetStorage.Storage.ZremRangeByLex` | native/vdr_ts_nif/src/storage/zsets.rs:826-883 | Exactly the members between two members go; inverted bounds on a set with members panic |
| `ZSetStorage.ScoreVictimsFound` | native/vdr_ts_nif/src/storage/zsets.rs:759-809 | The probed and filtered range holds exactly the members between the bounds |
| `ZAdd.MembersIndependent` | native/vdr_ts_nif/src/storage/zsets.rs:78-120 | Each member's final score depends only on its own pairs, in order |
| `ZAdd.UnnamedUnchanged` | native/vdr_ts_nif/src/storage/zsets.rs:78-120 | Members that no pair names keep their scores, under all options |
| `ZAdd.GtIsMax` | native/vdr_ts_nif/src/storage/zsets.rs:100-105 | With GT a named member ends at the maximum of its old score and all supplied ones |
| `ZAdd.LtIsMin` | native/vdr_ts_nif/src/storage/zsets.rs:100-110 | With LT at the minimum |
| `ZAdd.NxKeepsFirst` | native/vdr_ts_nif/src/storage/zsets.rs:83-86 | With NX an old score stays, otherwise the first supplied one wins |
| `ZAdd.XxSettles` | native/vdr_ts_nif/src/storage/zsets.rs:88-91 | With XX members are never created and the last score wins |
| `ZAdd.GtLtSettles` | native/vdr_ts_nif/src/storage/zsets.rs:100-110 | GT and LT together mean NX |
| `ZAdd.ExtremesUnordered` | native/vdr_ts_nif/src/storage/zsets.rs:78-120 | Under GT or LT the order and repetition of pairs do not matter |
| `ZAdd.EmptyExactly` | native/vdr_ts_nif/src/storage/zsets.rs:69-91 | The stored set is empty if and only if it was and no pair could create a member |
| `ZSetQueries.RankBelowLength` | native/vdr_ts_nif/src/storage/zsets.rs:357-362 | The subtraction in ZREVRANK does not underflow |
| `ZSetQueries.ZrankCounts` | native/vdr_ts_nif/src/storage/zsets.rs:306-331 | ZRANK is the number of smaller (score, member) pairs |
| `ZSetQueries.ZrankInverts` | native/vdr_ts_nif/src/storage/zsets.rs:198-365 | ZRANK inverts ZRANGE at every position, and ZREVRANK mirrors it |
| `ZSetQueries.ScoreRangeAgrees` | native/vdr_ts_nif/src/storage/zsets.rs:257-404 | ZRANGEBYSCORE is the filtered index whatever the overrun, its length is ZCOUNT, and both count the members between the bounds, also when min exceeds max |
| `ZSetQueries.ZrangeExactly` | native/vdr_ts_nif/src/storage/zsets.rs:218-252 | ZRANGE is the slice between its positions if and only if no bound is clamped onto an element |
| `ZSetQueries.ZrangeClampsStart` | native/vdr_ts_nif/src/storage/zsets.rs:225-239 | For instance position 5 of a set of one returns its element |
| `ZStores.CollectUnion` | native/vdr_ts_nif/src/storage/zsets.rs:905-937 | Tallies for each member exactly its weighted scores over the sources, in order; a foreign source is an error |
| `ZStores.CollectIntersection` | native/vdr_ts_nif/src/storage/zsets.rs:988-1038 | With its early exits, tallies exactly the members of all sources, and errs exactly on a foreign source it reaches |
| `ZStores.CollectDifference` | native/vdr_ts_nif/src/storage/zsets.rs:1079-1115 | Keeps exactly the members of the first source that no other has |
| `ZStores.Zunionstore` | native/vdr_ts_nif/src/storage/zsets.rs:885-958 | The destination holds the aggregate of the weighted scores of exactly the members of some source, read without the destination, or is gone |
| `ZStores.Zinterstore` | native/vdr_ts_nif/src/storage/zsets.rs:960-1059 | The same for members of all sources |
| `ZStoreNumbers.UnionNumbers` | native/vdr_ts_nif/src/storage/zsets.rs:905-955 | In real numbers: each member of a union has the sum, minimum or maximum of score times weight over the sources that have it, a missing weight being 1 |
| `ZStoreNumbers.IntersectionNumbers` | native/vdr_ts_nif/src/storage/zsets.rs:988-1056 | So has each member of an intersection |
| `ZStoreNumbers.OneSource` | native/vdr_ts_nif/src/storage/zsets.rs:905-955 | A union of one source is that source, or with a weight every score multiplied by the rule of signs |
| `ZStoreNumbers.SumWithInfinities` | native/vdr_ts_nif/src/storage/zsets.rs:942-946 | A sum with NaN or opposite infinities is NaN, otherwise an infinity absorbs the rest |
| `ZStores.Zdiffstore` | native/vdr_ts_nif/src/storage/zsets.rs:1061-1131 | The same for members of the first source only, with their own scores |
| `ZStores.CombineExtreme` | native/vdr_ts_nif/src/storage/zsets.rs:942-946 | MIN and MAX give the least and greatest contribution |
| `ZStores.CombineUnordered` | native/vdr_ts_nif/src/storage/zsets.rs:942-946 | Aggregation gives the same for every reordering of the contributions, also with infinities and NaN |
| `ZStores.UnionUnique` | native/vdr_ts_nif/src/storage/zsets.rs:939-955 | Only one map is the union, so hash map order cannot show |
| `ZStores.IntersectionUnique` | native/vdr_ts_nif/src/storage/zsets.rs:1040-1056 | Nor in the intersection |
| `ZStores.SourcesUntouched` | native/vdr_ts_nif/src/storage/zsets.rs:894-895 | The sources are read as they were if and only if none is the destination or that was missing |
| `ZStores.AliasedUnionLoses` | native/vdr_ts_nif/src/storage/zsets.rs:894-895 | A union into one of its sources loses exactly the members that no other source has |
| `ZStores.AliasedScores` | native/vdr_ts_nif/src/storage/zsets.rs:894-895 | Every member gets the contributions of all sources but the destination, each with its own weight |
| `ZStores.AliasedKeepsOthers` | native/vdr_ts_nif/src/storage/zsets.rs:894-895 | Members that the destination did not have get all their contributions |
| `ZStores.SelfUnionLosesMember` | native/vdr_ts_nif/src/storage/zsets.rs:894-895 | For instance a set united with itself in place loses its member |
| `ZStores.AliasedIntersectionEmpty` | native/vdr_ts_nif/src/storage/zsets.rs:969-970 | An intersection into one of its sources is empty |
| `Cursors.MemberOrder` | native/vdr_ts_nif/src/storage/mod.rs:66-103 | The order of keys is a strict order |
| `Cursors.MembersByOctets` | native/vdr_ts_nif/src/storage/mod.rs:66-103 | Keys and members are visited in octet order: a proper prefix first, otherwise the smaller octet at the first difference |
| `Cursors.BatchExactly` | native/vdr_ts_nif/src/storage/mod.rs:36-82 | A batch is the count first keys, or the first ones after the cursor, in order; fewer only if there are no more |
| `Cursors.BackBatchExactly` | native/vdr_ts_nif/src/storage/mod.rs:50-103 | The same from the other end |
| `Cursors.Walk` | native/vdr_ts_nif/src/storage/zsets.rs:457-553 | For every batch size from one, first and then next after the last one seen visits everything once, in order, and ends |
| `Cursors.WalkBack` | native/vdr_ts_nif/src/storage/mod.rs:50-103 | Last and prev give the exact reverse |
| `Cursors.PrevIsNextReversed` | native/vdr_ts_nif/src/storage/mod.rs:84-103 | Prev is next on the reversed keys in the flipped order |
| `Cursors.VisitedOrdered` | README.md:210-227 | With changes between batches the visits stay in order, so none is repeated |
| `Cursors.StableKeyVisited` | README.md:210-227 | A key that stays while others come and go is visited by every walk that ends |
| `PrefixTree.InsertHolds` | native/vdr_ts_nif/src/lib.rs:27-35 | Insertion adds exactly one watch |
| `PrefixTree.DeleteHolds` | native/vdr_ts_nif/src/lib.rs:37-52 | Deletion removes exactly one |
| `PrefixTree.InsertPruned` | native/vdr_ts_nif/src/lib.rs:27-35 | Insertion leaves no empty node |
| `PrefixTree.DeletePruned` | native/vdr_ts_nif/src/lib.rs:42-52 | Nor does deletion |
| `PrefixTree.Canonical` | native/vdr_ts_nif/src/lib.rs:21-52 | Pruned tries with the same watches are equal, node for node |
| `PrefixTree.InsertThenDelete` | native/vdr_ts_nif/src/lib.rs:27-52 | Deleting a fresh watch again restores the trie |
| `PrefixTree.InsertCommutes` | native/vdr_ts_nif/src/lib.rs:27-35 | The order of insertions does not matter |
| `PrefixTree.Lookup` | native/vdr_ts_nif/src/lib.rs:54-68 | The walk collects exactly the watchers of prefixes of the key |
| `PrefixTree.RootsCanonical` | native/vdr_ts_nif/src/lib.rs:75-130 | A set of watches has one representation over all databases |
| `PrefixTree.PrefixWatchTree.InsertWatch` | native/vdr_ts_nif/src/lib.rs:101-112 | The tree stands for the old set of triples with the new one |
| `PrefixTree.PrefixWatchTree.DeleteWatch` | native/vdr_ts_nif/src/lib.rs:114-130 | Without the deleted one; an empty root is removed |
| `PrefixTree.PrefixWatchTree.LookupWatchers` | native/vdr_ts_nif/src/lib.rs:132-146 | Exactly the watchers with a prefix of the key in this database |

## Left out

- NIF glue, atoms and term encoding, and the owning-process checks of the resources.
- Lua scripts, sockets, TLS, authentication, Sentinel discovery, reconnect backoff and ACK timers.
- Command parsing from raw to typed commands and user command filters: the session takes the parse as a parameter, and no filter.
- Strings, lists, hashes and plain sets of the store: mostly one-branch facts; they appear as `Other` values that sorted-set commands refuse.
- ZRANGESTORE, ZSCORE, ZCARD and the parsing of textual bounds: only more members of the same kind. The lookup of key and value type around the sorted-set queries, which the write commands model, is not repeated for them.
- RDB checksum verification (the parser skips the octets), list nodes that are not packed (the loader reads every node as a listpack), the values of expiry times beyond the PEXPIREAT command they yield, and the log messages.
- The parsers' state after an error: the owner discards the parser.
- The `pos` of the magic state, which is always zero.
- `usize`, `u64` and address overflow: lengths and positions are unbounded, except that decimal numbers in the stream and lengths in files must fit 64 bits, and database numbers in SELECT 32 bits.
- Floating-point rounding and float printing: scores are extended reals and printed floats are function parameters.
- Unicode upper-casing of command names beyond the characters that can turn into an ASCII letter of a known name (the long s and the dotless i).
- Sharing inside the store: sorted sets are values in the database map, and trie nodes are values in their parent, so that the in-place update through `&mut` references in `RadixNode::insert` becomes recursion.
- `indexset::BTreeSet` itself: a strictly sorted sequence with `rank`, `insert` and `remove`, and a `range` that starts at its lower probe and may overrun the upper one by any number of keys.
- Delivery of notifications to watchers and the process registry beyond the handle that readers get; the watch tables of `lib/veidrodelis/ts/watch.ex`.
- The primary's side of PSYNC. `lib/veidrodelis/redis_stream/replica.ex:801-821` sends the counted offset itself where the protocol names the first octet wanted, so the primary sends the last octet again; the theorems of `SessionResume` therefore allow any octets to be repeated.
- A repeated tail that begins inside a command is decided by SessionResume.ResumeExactly through what the new parser makes of it, not in terms of commands.
- What a panicking storage command leaves behind by itself: it is taken to change nothing, as ZREMRANGEBYLEX does, and to end the process; the restart of the process is not modelled.
- TsProj.HandleStreamingStart: requires that a replication start came before; `Session` establishes it.
- LzfCompressor.SwapSlot: has no contract on the table, because any slot content is harmless.
