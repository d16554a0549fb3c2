# A verified model of the Ignite Go client

This project models, in Dafny, the parts of the Go thin client for Apache Ignite whose correctness is not
visible in any single function: the binary format with its back-patched headers and footers, the recursive
value codec, the type metadata that may only grow, the optimiser for cluster group filters, the multiplexed
request protocol, and a few small state machines. `dafny verify dfyconfig.toml` checks all of it.

Every component has the same shape. A value level gives the meaning as functions (a printer and a parser, a
merge, a projection, a state machine). Where the client works in place, a class or a method with loops does what
the Go code does, step by step on shared streams, maps and fields, and its contract equates the new state with
the value level. Lemmas then prove what the client relies on about the value level: that reading undoes writing,
that an optimised form means what the plain one does, that nothing is lost in any interleaving.

| files | component |
|---|---|
| `Wrappers`, `Bytes`, `IterationOrder`, `Streams` | results and errors, little- and big-endian integers, map iteration orders, the growable stream (`buffer.go`) |
| `Values`, `Scalars`, `Codec`, `RoundTrip`, `Marshaller`, `WireFormat`, `ReadOutcomes` | values and their normal form, decimals and timestamps, printer and parser, round trips, the stream methods, the bytes position by position, what becomes of bad streams (`marshaller.go`) |
| `SchemaIds`, `ObjectLayout`, `BinaryObjects`, `FieldReader`, `ObjectStore` | schema ids, object layout and field lookup, the object writer, field access, writer and registry together (`binary_object.go`) |
| `Metadata`, `MetadataCache`, `RegistryPuts`, `MetadataPuts`, `MetaMessage`, `MetaFormat`, `MetaTransfer` | metadata merge, the cache, puts through the registry, concurrent puts, the metadata message and its bytes (`binary_schema.go`) |
| `Filters`, `FilterMeanings`, `PushDown`, `ClusterProjection`, `NodeQueries`, `FilterRecords`, `FilterRequest` | filters and projections, what filters accept, server push-down, the in-place projection, asking for one node, the request and its bytes (`cluster.go`) |
| `Packets`, `PacketAccumulators`, `ChannelProtocol`, `ChannelRuns` | packet reassembly and framing, senders, reader, writer and closer, what their runs achieve (`channel.go`) |
| `BitSets`, `Cursors`, `Retries` | bit set, paged cursor, retry loop |

## Conventions

- A Go map is ranged over in an unspecified order. Where the result could depend on it, the order is a parameter
  (`IsOrderOf`: every key once), and lemmas show when it does not matter.
- Integers have the width of the source where it matters: `int32` and `int64` are ranges, conversions wrap
  explicitly (`Wrap`, `ToInt32`, `ToInt64`), and Go's truncating division is `TruncDiv` and `TruncMod`.
- A panic is the outcome `Panic`, except for the overflow of a stream beyond 2^31-1 bytes, which is a
  precondition of the writing methods.
- `Norm` is what a value looks like after it has been written and read: a nil slice and a null collection or map turn
  nil, unsigned integers turn signed, `[]int8` turns `[]byte`, and a decimal loses the sign of zero.
- In `ChannelProtocol` and `MetadataPuts` an action is one atomic access to shared state; an action that is not
  enabled changes nothing, so that every list of actions is a run.

## What the proofs found

- If two field lists of one type share a schema id, the list that came first stays and the later put returns
  without an error (binary_schema.go:688-695). A put is taken over as it is if and only if the entry does not
  disagree when it is stored (`StoreExact`, `StoredSchemas`). In a run whose inputs do not disagree with each other no
  put loses anything (`NoLostPut`), and any two inputs that can be merged but disagree have a run in which the later
  one does (`LaterPutLost`): objects with the int fields f115, f48 and f284, f267 are such inputs (`CollidingFields`,
  `SchemaIdsCollide`). An object with a compact footer is then read through the other list, where an id gives another
  field's value, null or a panic (`CompactLookup`).
- A grown enum is rebuilt without its affinity key (binary_schema.go:648-654). A later put of the same enum then
  conflicts, and so does merging the grown record into the old one again (`AffinityKeyKept`, with `AffinityKeyLost` as
  input). The client's own enums have no affinity key (binary_schema.go:63-76), so that only records of one type that
  come from the server (binary_schema.go:396-414) can meet this.
- The first put of a type is unchecked (binary_schema.go:609-611). The outcome of later enum merges is independent
  of map iteration order if and only if no two names of the old enum share an ordinal (`OrderIndependentExact`,
  with the failing orders in `MergeNamesOrderMatters`).
- The type recorded for a field, when it is taken from a value, is the type code that the value is written under if
  and only if the value is no `[]bool`, for which the type switch has no case and "object array" is recorded, and no
  nil slice or null collection or map, which is written as null (marshaller.go:603-786, `TypeIdExact`). A nil field
  keeps the type recorded earlier, and is recorded as a binary object if there is none (binary_object.go:443-455,
  `RecordedTypeExact`): a field that is first written as nil then refuses every later value but nil and binary objects
  (`FirstNullRefusesValues`).
- An object that is only a header is readable if and only if a byte follows it: its length is checked after its
  first byte is consumed (marshaller.go:1082-1115, `HeaderOnlyObject`).
- If a field id occurs twice, a compact footer yields the last value and the other footer the first
  (binary_object.go:117-140, `FieldLookup`).
- The documentation of `GetClusterGroup` says that filters are applied in the order in which they are passed
  (client.go:400-401). The result is the same, except that the error of a failing filter is reported if and only if
  the filter has nodes to filter and the projection has not collapsed (`BuildExact`, with the two ways of losing it
  in `CollapseHidesFailure` and `EarlyEndHidesFailure`).
- Asking a group for one node applies the projection to that node alone (cluster.go:183-206), so that `ForYoungest`
  has nothing to choose from. With `ForYoungest` behind filters that test nodes one by one, and whatever else that
  tests or picks behind it, `Node` finds a node that `Nodes` leaves out if and only if it passes all tests and is not
  the youngest of those that pass the tests before `ForYoungest` (`YoungestAgreesExactly`, with `OlderNodeFound` as
  input). Without filters that pick the two agree (`NodeAgreesWithNodes`).
- The filter count of a topology request counts filters, while an attribute filter writes one record per
  attribute (cluster.go:711-727, 821-831). The count is never too large, and a server that trusts it applies
  fewer conditions, which the client makes up for (`CountAgainstRecords`, `CountedRecordsSound`).
- The bit set takes the remainder by the number of the word (internal/bitset/bitset.go:26, 35, 46), so that
  indices of one word share bits: it is a set exactly for indices up to 64 (`SetUpToSixtyFour`). Its normal form
  is never at risk (`ShiftSmall`, `RunNormal`).
- The id-mismatch panic of a sender (channel.go:155-158) is out of reach whatever the server sends, since the
  reader selects a request by the id it has parsed (`OutcomesSound`).
- A sender reads the error of its request twice before it reports it (channel.go:145-146). If the channel is closed
  while the reader stores the reply, the error can be gone by then and the response reader gets neither input nor
  error (`NeitherHappens`); this takes a closed channel and a reply (`OutcomesSound`).
- The error that a reply carries is reported unless the server answers the same id twice: a second reply that comes
  while the sender reads the first one clears it (channel.go:164-180, `OutcomesSound`, `SecondReplyHidesError`). A
  reply that ends within its own header makes the sender panic (channel.go:155-170).
- After a connection failure the retry loop ends if and only if a turn finds no channel or the number of attempts
  meets the limit of that turn (reliable_channel.go:30-56, `EndsExactly`); a success does not end it
  (`SuccessDoesNotEnd`). Limits that stay bounded are met unless one shrinks to no more than the attempts made
  (`LimitMet`, `GrowingLimitEnds`), and limits that stay that low are never met (`ShrunkLimitNeverMet`, with
  `ShrunkLimitExample` as input).
- A loop over `Next` ends at an empty page that is not the last one and misses the rows behind it
  (cursor_base.go:52-70, `SeesAllRows`). When a next-page request fails, the reader goes on to read a page from the
  reply, and `Next` panics if and only if reading it does (cursor_base.go:57-66, `FailedRequest`); the replies of a
  lost connection hold nothing to read (`LostConnectionPanics`).

## Model

| member | source | states |
|---|---|---|
| `Streams.OutputStream.EnsureAvailable` | buffer.go:137-146 | growing keeps every byte and adds zeros only where there was nothing |
| `Streams.OutputStream.WriteBytes` | buffer.go:238-243 | a write replaces exactly the bytes at the position and moves the position behind them |
| `Streams.OutputStream.HashCode` | buffer.go:353-359 | the loop computes the sum of the signed bytes times their powers of 31, modulo 2^32, and the stream is left alone |
| `Streams.OverwriteTwice` | buffer.go:238-243 | two writes in a row equal one write of both, whatever the buffer held and however it had to grow |
| `Bytes.FromLEOfLE` | buffer.go:210-228 | little-endian writing and reading agree modulo 256^n for every integer and width |
| `Bytes.LEDigits` | buffer.go:210-228 | byte i of a little-endian integer counts for 256^i, for every integer and width |
| `Bytes.BigEndianDigits` | marshaller.go:1467-1480 | the bytes of a coefficient are its digits to the base 256, the most significant first |
| `Streams.HashMeaning` | internal/utils.go:30-36 | wrapping around at every byte is wrapping around once at the end |
| `Scalars.WriteDecimal` | marshaller.go:1467-1480 | the stream receives exponent, length and sign-magnitude coefficient of the decimal |
| `Scalars.ReadDecimal` | marshaller.go:1606-1626 | reading returns what the decimal parser says, with its error cases |
| `Scalars.SignedMagnitudeRoundTrip` | marshaller.go:1469-1477 | the extra leading byte always leaves the sign bit free, for coefficients of any size |
| `Scalars.DecimalRoundTrip` | marshaller.go:1606-1626 | a decimal of any size, sign and exponent is read back exactly if and only if it is no negative zero, and reading stops behind it |
| `Scalars.WriteTimestamp` | marshaller.go:1458-1465 | the stream receives milliseconds and the nanoseconds below them |
| `Scalars.ReadTimestamp` | marshaller.go:1597-1604 | reading returns what the timestamp parser says |
| `Scalars.FromMillisExact` | marshaller.go:1597-1604 | the 32-bit nanosecond sum never overflows, and truncated quotient and remainder give the exact second and nanosecond also before 1970 |
| `Scalars.TimestampRoundTrip` | marshaller.go:1458-1465 | a timestamp survives to the nanosecond if and only if its milliseconds fit in 64 bits |
| `Codec.Decode` | marshaller.go:788-1056 | every read consumes at least one byte and stays within the stream, which is why nested reads end |
| `Codec.DecodeSeq` | buffer.go:575-599 | n elements take at least n bytes, and n elements are returned |
| `Marshaller.Marshal` | marshaller.go:207-603 | writing a value at any nesting depth puts exactly its printed form on the stream |
| `Marshaller.Unmarshal` | marshaller.go:788-1056 | reading a value returns the parser's result and position, or its error |
| `Marshaller.WriteSequence` | buffer.go:601-610 | count and elements are written in order |
| `Marshaller.ReadSequence` | buffer.go:592-599 | the element loop returns the parsed elements, or the first error |
| `Marshaller.WritePrims` | buffer.go:558-564 | the fast path lays out primitive elements little-endian, for arrays that are not empty |
| `Marshaller.ReadBinaryObject` | marshaller.go:1082-1115 | an object is cut out by the length in its header, and corrupt lengths are told apart |
| `RoundTrip.ValueRoundTrip` | marshaller.go:788-1056 | unmarshalling what was marshalled returns the normal form and stops at its last byte whatever follows, for arbitrarily nested arrays, collections and maps |
| `RoundTrip.SeqRoundTrip` | buffer.go:575-599 | the same for the elements of typed arrays and collections |
| `RoundTrip.EntriesRoundTrip` | marshaller.go:1263-1289 | the same for the entries of maps, in order |
| `RoundTrip.Unambiguous` | marshaller.go:207-603 | no encoding is a proper prefix of another: two values written at one place are the same value |
| `RoundTrip.HeaderOnlyObject` | marshaller.go:1082-1115 | an object without fields is readable if and only if a byte follows it |
| `Values.NormIdempotent` | marshaller.go:788-1056 | writing and reading a value that was read changes nothing more |
| `WireFormat.TypeCodes` | marshaller.go:39-84 | the type codes and widths are those of the protocol |
| `WireFormat.NilFormat` | marshaller.go:207-211 | a nil, of whatever type, is one byte |
| `WireFormat.ScalarFormat` | marshaller.go:213-300 | a scalar is its type code and then its bytes, the least significant first |
| `WireFormat.BytesFormat` | marshaller.go:1406-1433 | strings and byte arrays are type code, length and bytes |
| `WireFormat.PrimArrayFormat` | buffer.go:558-564 | a primitive array is type code, number of elements and the elements at their multiples of the width |
| `WireFormat.UuidFormat` | marshaller.go:1435-1448 | both halves of a uuid are written with their bytes turned around |
| `WireFormat.TimeFormat` | marshaller.go:1458-1465 | dates and times are their milliseconds since 1970, and a timestamp adds the nanoseconds below them |
| `WireFormat.DecimalFormat` | marshaller.go:1467-1480 | a decimal is its negated exponent, its length and its coefficient with the sign in the topmost bit, without needless bytes |
| `WireFormat.ContainerFormat` | marshaller.go:1313-1366 | typed arrays, object arrays and collections are type code, element type, number and kind, each in its place, and the elements |
| `WireFormat.MapFormat` | marshaller.go:1368-1385 | a map is type code, number and kind, and the entries |
| `WireFormat.ElementsFormat` | buffer.go:601-610 | every element stands right behind those before it |
| `WireFormat.EntriesFormat` | marshaller.go:1374-1385 | every entry stands right behind those before it, its key in front of its value |
| `WireFormat.HeaderFormat` | binary_object.go:473-516 | every part of an object's header stands at its place: version, flags, type id, hash, length, schema id and footer position, and the body behind it |
| `WireFormat.FooterFormat` | binary_schema.go:210-238 | the footer has one entry per field in order, with its id unless it is compact |
| `ReadOutcomes.OtherCodesRefused` | marshaller.go:788-1056 | a value of any other type code is refused with that code |
| `ReadOutcomes.StringOutcome` | marshaller.go:1504-1532 | a string is read exactly if its bytes are there, and a negative length panics |
| `ReadOutcomes.PrimArrayOutcome` | buffer.go:566-573 | a primitive array is read exactly if its bytes are there and it is not empty |
| `ReadOutcomes.ObjectOutcome` | marshaller.go:1082-1115 | when an object is read, cut short, panics or is corrupted, by its length and class name |
| `ReadOutcomes.ElementOutcome` | buffer.go:575-599 | an element of a typed array is null, of the array's type, or an error |
| `ReadOutcomes.BoolOutcome` | buffer.go:379-386 | only a one is read as true |
| `ReadOutcomes.NamedArrayOutcome` | marshaller.go:1560-1574 | the class name of an unregistered element type is read over |
| `ReadOutcomes.BytesBehindEnd` | buffer.go:444-448 | bytes behind the end of the stream are read as zeros |
| `ReadOutcomes.DecimalOutcome` | marshaller.go:1606-1626 | by its size a decimal is read, panics or has no coefficient |
| `ReadOutcomes.NegativeCount` | binary_schema.go:465-517 | a list of a metadata message with a negative count reads as empty |
| `ReadOutcomes.RawFooter` | binary_object.go:214-236 | with the raw flag the last four bytes of an object are no part of its footer |
| `ReadOutcomes.NamelessLookup` | binary_object.go:92-103 | an object whose class name cannot be read gives an error for every field |
| `SchemaIds.UpdateBijective` | binary_schema.go:240-250 | for a fixed field id the schema id update is a bijection on 32-bit values, with its inverse |
| `SchemaIds.FoldInjective` | binary_schema.go:240-250 | extending two ids by the same fields keeps them equal or different |
| `SchemaIds.CommonTail` | binary_schema.go:240-250 | schemas with a common tail share an id exactly if their heads do |
| `SchemaIds.SchemaIdsCollide` | binary_schema.go:240-250 | two lists of the ids of two ordinary field names each have one schema id |
| `BinaryObjects.SchemaBuilder.AddField` | binary_schema.go:193-197 | the running id stays the fold over the field ids recorded so far |
| `BinaryObjects.SchemaBuilder.Build` | binary_schema.go:199-208 | the id built is the fold over exactly the field ids returned |
| `BinaryObjects.SchemaBuilder.WriteFooter` | binary_schema.go:210-238 | the footer lists all slots in order with the offset width that the last offset needs |
| `BinaryObjects.BinaryWriter.constructor` | binary_object.go:379-409 | 24 bytes are reserved where the stream stands, and an unregistered type's name follows them |
| `BinaryObjects.BinaryWriter.WriteField0` | binary_object.go:425-471 | a field is refused if its recorded type differs, and otherwise its value is appended, its offset noted and its metadata added if it is new |
| `BinaryObjects.BinaryWriter.Finalize` | binary_object.go:473-516 | finishing leaves exactly the object's bytes where it started and every other byte of the stream as it was, ends at its last byte, and adds the schema to the metadata |
| `BinaryObjects.FinishedIsObject` | binary_object.go:473-516 | what a writer leaves behind is the layout in which fields are looked up, unless its only fields were refused, which sets the schema flag over an empty footer |
| `BinaryObjects.TypeIdExact` | marshaller.go:619-786 | the type code taken from a value is the one that the value is written under if and only if the value is no bool array, nil slice or null collection or map |
| `BinaryObjects.RecordedTypeExact` | binary_object.go:443-455 | the type recorded for a field is the type code that its value is written under if and only if it is given so, or comes from a value that is no bool array, nil slice or null collection or map, or a nil field is known as null |
| `BinaryObjects.FirstNullRefusesValues` | binary_object.go:443-460 | a field first written as nil is recorded as a binary object and then refuses exactly the values that are neither nil nor of a binary object's type |
| `BinaryObjects.AddedFieldTakes` | binary_object.go:443-464 | a field that was added takes exactly the values of its recorded type from then on, and nil, and other fields are as before |
| `ObjectLayout.OffsetFits` | binary_schema.go:215-236 | no offset is larger than the last one, so all of them fit the width chosen by it |
| `ObjectLayout.FieldLookup` | binary_object.go:92-150 | in every finished object, compact or not and for every offset width, a lookup of any id finds the value written under it, or null; of duplicates the last if compact and else the first |
| `ObjectLayout.CompactLookup` | binary_object.go:106-150 | read through any field list, an object with a compact footer gives the value at the last place that list has the id, null if it has none, and a panic if the object has fewer fields |
| `ObjectLayout.FinishedObject` | binary_object.go:473-516 | an object with a field is a value that streams, arrays and collections can hold, wherever it was written |
| `ObjectLayout.BackToBack` | marshaller.go:1082-1115 | objects written one after the other are read one by one, each with its own bytes |
| `FieldReader.BinaryObject.GetTypeId` | binary_object.go:180-198 | the cached type id is always the one in the object, by header or by class name |
| `FieldReader.LocateOffset` | binary_object.go:106-140 | the footer search agrees with the layout: last match through the schema, first match in the footer |
| `FieldReader.BinaryObject.Field` | binary_object.go:92-150 | field access through flags, registry and footer returns the looked-up value and its errors |
| `FieldReader.ObjectIdentity` | binary_object.go:180-212 | a finished object tells its type, by id or class name, and the fold of its field ids |
| `FieldReader.WriteThenRead` | binary_object.go:92-150 | after the metadata of a written object is put, every field is readable through the registry, provided, for a compact footer, that its schema id did not stand for another field list |
| `RegistryPuts.RegistryPutOutcome` | binary_schema.go:304-319 | for all metadata the registry's two merges come to one put, which fails exactly if it disagrees, changes something that cannot be sent, or would grow an enum that has an affinity key |
| `RegistryPuts.PutMetadata` | binary_schema.go:304-319 | get, merge, send and put move the cache as that put does and fail as it does, in whatever order the maps are ranged over |
| `ObjectStore.AddedWellFormed` | binary_schema.go:78-81 | adding a field keeps the field order and the field map in step |
| `ObjectStore.Finalize` | binary_object.go:473-516 | finishing puts the object's metadata; if that succeeds the object stands in the stream and, provided for a compact footer that its schema id did not stand for another field list, every field of it is readable through the registry, refused ones as null; otherwise the registry is as it was and its error is returned |
| `ObjectStore.RefusedLookup` | binary_object.go:92-150 | in what a writer leaves whose only fields were refused, every lookup gives null, except that a compact footer needs a known schema and panics on an id of another field list |
| `Metadata.MergeNamesOutcome` | binary_schema.go:629-647 | for every two iteration orders an enum merge succeeds exactly if no name has two ordinals and no ordinal two names, and gives the union with its mirror |
| `Metadata.MergeNamesOrderMatters` | binary_schema.go:629-645 | in any old enum with two names of one ordinal, ranging over one of them last makes putting the other again fail, and ranging over it last makes it succeed |
| `Metadata.OrderIndependentExact` | binary_schema.go:629-647 | for every merge the outcome is independent of all iteration orders if and only if the old enum is one-to-one |
| `Metadata.MergeOrderIrrelevant` | binary_schema.go:608-708 | for well-formed old metadata success, failure and result do not depend on any map order |
| `Metadata.MergeOutcome` | binary_schema.go:608-708 | a merge fails exactly if the two disagree, reports no change exactly if the old one has everything, and otherwise extends the old metadata by the new |
| `Metadata.MergeIdempotent` | binary_schema.go:608-708 | merging the result again reports no change, and neither does merging the input again, except for an enum with an affinity key, which conflicts |
| `Metadata.FirstWins` | binary_schema.go:658-695 | a merge keeps every field and field list of the old metadata and adds those that it lacks as they come |
| `Metadata.MergeAgrees` | binary_schema.go:656-706 | a record is merged as it is if and only if the old metadata gives none of its fields and schema ids another meaning |
| `Metadata.MergeCatchUp` | binary_schema.go:304-319 | merging the outcome of a merge into metadata that has grown since gives what merging the input there gives, but for a dropped affinity key |
| `Metadata.MergeTwice` | binary_schema.go:304-319 | the cache's second merge over the same old metadata gives what the registry's first merge gave |
| `Metadata.AffinityKeyKept` | binary_schema.go:648-655 | the affinity key survives a changing merge if and only if the type is no enum or has none; where it is lost, putting the input again and the cache's second merge both conflict |
| `Metadata.AffinityKeyLost` | binary_schema.go:648-655 | a concrete enum that loses its affinity key |
| `MetadataCache.MergeMetadata` | binary_schema.go:608-708 | the record is overwritten with the merge if that changes something and untouched otherwise |
| `MetadataCache.CopyMetadata` | binary_schema.go:88-121 | copying well-formed metadata gives it back, though an enum's names are rebuilt from its ordinals |
| `MetadataCache.PutOutcome` | binary_schema.go:562-576 | a put takes nothing away, touches no other type, and if it succeeds the entry holds every field, schema id and enum name that was put, with the field ids and field lists that were put if and only if the entry before did not disagree |
| `MetadataCache.PutSchemas` | binary_schema.go:682-695 | after a successful put a schema id stands for the list that came first |
| `MetadataCache.BinaryMetadataCache.GetMetadata` | binary_schema.go:537-545 | the caller gets a record of its own, equal to the entry |
| `MetadataCache.BinaryMetadataCache.GetSchema` | binary_schema.go:547-560 | the schema of the entry, or none |
| `MetadataCache.BinaryMetadataCache.PutMetadata` | binary_schema.go:562-576 | the cache of record objects moves as the abstract put does, in every iteration order |
| `MetadataPuts.StepKeeps` | binary_schema.go:304-319 | what every goroutine knows in its phase stays true under any step of any other, and the cache only grows |
| `MetadataPuts.RunGrows` | binary_schema.go:562-576 | over every run no field, type, kind, schema, order prefix or enum entry changes or disappears, and an affinity key changes only by being lost from an enum |
| `MetadataPuts.StoreIsPut` | binary_schema.go:304-319 | in every interleaving the two merges of a put, with whatever happens between them, move the cache and fail as putting the input in one go does, but for the affinity key of an enum |
| `MetadataPuts.StoredSchemas` | binary_schema.go:682-695 | in every interleaving a schema id stands, after a store that succeeds, for the list that came first |
| `MetadataPuts.StoreExact` | binary_schema.go:304-319 | what a caller put is held with its own field ids and field lists if and only if the entry did not disagree when it was stored |
| `MetadataPuts.NoLostPut` | binary_schema.go:304-319 | in every interleaving the entry holds every field with its type, schema id and enum name of every caller that returned without error, and the field ids and field lists as well if no two inputs of the run disagree |
| `MetadataPuts.PutStays` | binary_schema.go:304-319 | and it does so at every later point of the run, where a put that was taken over as it is stays so and one that was not does not become so |
| `MetadataPuts.LaterPutLost` | binary_schema.go:688-695 | for any two inputs that can be merged but disagree there is a run in which the later put succeeds and is not held as it was put |
| `MetadataPuts.CollidingFields` | binary_schema.go:240-250 | objects of one type with two ordinary int fields each are such inputs |
| `MetadataPuts.SendsExactly` | binary_schema.go:304-319 | in every interleaving a caller sends exactly if the entry it has read does not hold its metadata |
| `MetadataPuts.UnsentChangesNothing` | binary_schema.go:304-319 | a caller that found nothing to send does not change the cache, however it has moved on |
| `MetaMessage.MessageRoundTrip` | binary_schema.go:465-517 | the parser of the message undoes its printer, empty affinity key written as null included |
| `MetaMessage.MetaRebuilt` | binary_schema.go:476-516 | the lists in the message rebuild field order, field map, both sides of the enum and the schemas, for every iteration order |
| `MetaMessage.MetaRoundTrip` | binary_schema.go:416-517 | decoding the client's message gives the same metadata for every order in which its maps were ranged over |
| `MetaFormat.MetaWritten` | binary_schema.go:416-463 | type id, names, fields, enum flag, enum names and schemas stand one behind the other, each list with its number of entries in front |
| `MetaTransfer.WriteBinaryMeta` | binary_schema.go:416-463 | the nested loops put the message on the stream, where a reader finds each part of the metadata in its place |
| `MetaTransfer.UnmarshalBinaryMeta` | binary_schema.go:465-517 | the nested loops build the metadata that the parser describes, or its error |
| `Filters.MergeMeaning` | cluster.go:772-862 | a merged filter accepts exactly what both accept, and a contradiction is accepted by no node |
| `FilterMeanings.EqualityMeaning` | cluster.go:792-802 | attribute values are equal if they are the same, except that a NaN equals nothing and both zeros are equal, said of the bit patterns |
| `FilterMeanings.PlainAttributesAccept` | cluster.go:792-802 | without floats an attribute filter accepts exactly the nodes that have every attribute with that very value |
| `FilterMeanings.AttributesAccept` | cluster.go:792-802 | and with floats those that have it with an equal value |
| `FilterMeanings.PlainAttributesMerge` | cluster.go:806-819 | without floats two attribute filters contradict each other exactly if a shared name has two values, and else merge into all attributes |
| `FilterMeanings.AttributesMerge` | cluster.go:806-819 | and with floats exactly if a shared name has unequal values |
| `FilterMeanings.KeptExactly` | cluster.go:616-624 | a filter that tests keeps exactly the nodes with the id, type, attributes or predicate, each as often as it is there |
| `Filters.ApplyReorderable` | cluster.go:671-686 | reorderable filters amount to one selection by all of them, whatever their order |
| `Filters.AppendMeaning` | cluster.go:645-669 | appending, with its merge past other filters, filters once more; only a collapse may differ, and only by hiding an earlier error |
| `Filters.BuildMeaning` | client.go:400-418 | for every list of filters and nodes the projection gives what the filters give one after another, or nothing where they fail |
| `Filters.BuildExact` | cluster.go:645-686 | for every filter that fails or picks nothing on an empty list, the two agree if and only if the plain application succeeds, or the projection has not collapsed and the first failing filter is given nodes |
| `Filters.BuildReorderable` | cluster.go:645-686 | without order-dependent filters the two always agree and nothing fails |
| `Filters.CollapseHidesFailure` | cluster.go:645-662 | a concrete list of filters whose error is lost by a contradiction |
| `Filters.EarlyEndHidesFailure` | cluster.go:671-686 | a concrete list of filters whose error is lost because no node is left |
| `Filters.BuildReduced` | cluster.go:651-666 | between filters that must keep their place there is at most one of each mergeable kind |
| `Filters.EmptyProjectionMeaning` | cluster.go:410-414 | the filter in the shared empty projection gives no node |
| `Filters.ExcludedIsDropped` | cluster.go:688-704 | a node is only left out without asking if the projection would drop it from every list |
| `PushDown.PushDownSound` | cluster.go:706-730 | whatever part of the written conditions the server applies, with whatever coarser equality, re-applying the projection gives what it gives on all nodes |
| `PushDown.GroupNodes` | cluster.go:169-180 | the nodes of a group, asked for with conditions and filtered again, in whatever order cache and server give them, are those that its filters give one after another on all nodes, or none where they fail |
| `PushDown.CountAgainstRecords` | cluster.go:711-727 | the count is at most the number of records, and equal to it if and only if no filter in the prefix has several attributes |
| `PushDown.CountedRecordsSound` | cluster.go:706-730 | a server that reads only as many records as the count says still leads to the right nodes |
| `PushDown.TwoAttributesMiscounted` | cluster.go:806-831 | two attribute filters on different names give one filter, count one and two records |
| `ClusterProjection.Intersect` | cluster.go:845-859 | the loop over the incoming ids computes the intersection, in every order |
| `ClusterProjection.MergeAttributes` | cluster.go:806-819 | the in-place loop succeeds exactly if no shared name has unequal values, and then the filter holds both |
| `ClusterProjection.MergeInto` | cluster.go:772-862 | merging changes the earlier filter object into the merged filter, or leaves it alone if the kinds do not merge |
| `ClusterProjection.AppendFilter` | cluster.go:645-669 | the objects after appending mean the appended projection, and the shared empty projection is never modified |
| `ClusterProjection.GetClusterGroup` | client.go:402-418 | the group's projection means the one built from the options in their order, in every iteration order |
| `ClusterProjection.ApplyPredicate` | cluster.go:616-624 | the loop keeps exactly the accepted nodes, in order |
| `ClusterProjection.Projection.Apply` | cluster.go:671-686 | the loop with its early end applies the filters one after another |
| `ClusterProjection.IsExcludedByFilters` | cluster.go:688-704 | true exactly for a projection that is one id filter without the id |
| `NodeQueries.GroupNode` | cluster.go:183-206 | the method finds a node by the excluded id, the ids of the server and the projection on that node |
| `NodeQueries.FindNodeExact` | cluster.go:183-206 | under filters that test nodes or choose among several, the node found is exactly the one of that id that passes all the tests |
| `NodeQueries.FindNodePushedDown` | cluster.go:183-206 | for any filters, the conditions applied by the server do not change the node found |
| `NodeQueries.NodeAgreesWithNodes` | cluster.go:183-206 | for every list of filters without order-dependent ones, a node is found if and only if it is among those that the filters leave of all nodes |
| `NodeQueries.ChooseYoungest` | cluster.go:265-280 | the loop chooses the first node of the highest order, and leaves fewer than two nodes alone |
| `NodeQueries.YoungestAgreesExactly` | cluster.go:265-280 | with `ForYoungest` behind filters that test and before filters that test or pick, asking for a node and for all nodes agree on it if and only if it fails a test or is the youngest of those that pass the tests before |
| `NodeQueries.OlderNodeFound` | cluster.go:183-206 | of any two nodes of different order the older is found, while the nodes are the younger alone |
| `FilterRequest.WriteFilter` | cluster.go:783-831 | for each attribute in order the code 1, its name and its value are read back, and for a node type the code 2 and a byte that is one exactly if the filter accepts servers |
| `FilterRequest.WriteServerSideFilters` | cluster.go:706-730 | the first four bytes are the count of the filters with a form for the server before the first that must keep its place, and these filters are read back behind it, in order, up to the end |
| `Packets.ParseConserves` | channel.go:423-439 | parsing a stream loses no byte and yields only packets a frame can carry |
| `Packets.FramesParsed` | channel.go:423-439 | packets that were framed are parsed back exactly, and parsing goes on behind them |
| `Packets.ParseMore` | channel.go:423-439 | more bytes only add packets, and a broken stream stays broken at the same place |
| `PacketAccumulators.PacketAccumulator.ProcessData` | channel.go:423-439 | the size is taken off once, and readiness, incompleteness and the panic are those of the whole pending stream |
| `PacketAccumulators.PacketAccumulator.Data` | channel.go:398-421 | a returned packet framed plus what is pending are the bytes pending before |
| `PacketAccumulators.PacketAccumulator.Drain` | channel.go:346-351 | draining returns exactly the packets of what is pending and keeps the rest |
| `PacketAccumulators.ReadChunks` | channel.go:328-378 | for every chunking the packets are those of the whole stream, and the rest is kept |
| `PacketAccumulators.EarlierIsPrefix` | channel.go:346-351 | at every moment the packets returned are the first ones of the whole stream |
| `PacketAccumulators.ReassemblyExact` | channel.go:382-439 | framed packets come back exactly and in order, wherever the stream was cut |
| `PacketAccumulators.NewRequest` | channel.go:66-87 | the first four bytes are the length of the rest, then come operation code, id and payload, and for a handshake the payload at once |
| `ChannelProtocol.StepKeeps` | channel.go:117-380 | every step of any sender, the reader, the writer or the closer keeps the invariant |
| `ChannelProtocol.DoneHasOwnPacket` | channel.go:195-228 | in every interleaving and for every server a request that is done without error holds a received packet with its own id |
| `ChannelProtocol.OutcomesSound` | channel.go:137-181 | answers go to the request they are for, no sender panics over an id, requests are only failed by a closed connection, an answer comes with an error if and only if it carries one unless the channel is closed or the id was answered twice, and neither answer nor error is given only after a close and a reply |
| `ChannelProtocol.NeitherHappens` | channel.go:144-148 | a run in which the response reader is given neither input nor error |
| `ChannelProtocol.SecondReplyHidesError` | channel.go:164-180 | from any state in which a sender has read an error reply, a second reply for its id makes that error disappear |
| `ChannelProtocol.AnswersApart` | channel.go:556-558 | no packet answers two requests, whether they have finished or not |
| `ChannelProtocol.CloseSettles` | channel.go:195-214 | once a close has ended, every request that was pending when it began has been answered, failed or given up |
| `ChannelProtocol.CloseFinishes` | channel.go:195-214 | from every reachable state with a close under way, the closer can finish by its own steps, visiting every key it has to |
| `ChannelProtocol.CloseReleases` | channel.go:137-144 | and then every waiting sender is released |
| `ChannelProtocol.WrittenOnce` | channel.go:281-307 | every request but a handshake is queued and written at most once, in every interleaving |
| `ChannelRuns.TakenIsWritten` | channel.go:281-307 | in every run an id taken from the queue is written, or its sender has got or given up its answer, or the closer has dropped its key, and what is written keeps the order of what is taken |
| `ChannelRuns.WaitingIsServed` | channel.go:132-135 | in every run a sender that waits is pending, with its request in the queue or written, unless the closer has dropped its key |
| `ChannelRuns.FirstComeFirstServed` | channel.go:281-307 | over every run requests are only added behind those queued, taken and written before |
| `ChannelRuns.FinishedNotPending` | channel.go:135 | in every run no request of a finished sender is pending |
| `ChannelRuns.RequestWaits` | channel.go:97-135 | on an open channel a request gets the next id, becomes pending and goes to the end of the queue |
| `ChannelRuns.RejectedEnds` | channel.go:126-130 | a request that cannot be built ends without becoming pending |
| `ChannelRuns.ReplyDelivered` | channel.go:328-378 | from every state in which a request waits, reader and sender deliver a reply with its id to its response reader, with an error exactly if the reply says so |
| `ChannelRuns.HandshakeDelivered` | channel.go:328-378 | the first reply answers the handshake, whatever it holds, and from then on replies go by their ids |
| `ChannelRuns.ShortPacketStops` | channel.go:353-362 | a packet without an id stops the reader, for the rest of every run |
| `ChannelRuns.GivesUp` | channel.go:135-140 | a sender whose context ends while it waits is cancelled and takes its request back |
| `ChannelRuns.ClosedRefuses` | channel.go:119-122 | once a channel is closed, no sender that asks gets further than being refused, in any continuation |
| `ChannelRuns.CloseReachesAll` | channel.go:195-214 | a close that begins at any point of a run and has ended later has settled every request that was pending at that point |
| `BitSets.RunAgrees` | internal/bitset/bitset.go:20-50 | after any sets and clears of indices up to 64 the test agrees with the mathematical set |
| `BitSets.ShiftSmall` | internal/bitset/bitset.go:20-29 | every index names a bit of its word, although the remainder is taken by the number of the word |
| `BitSets.RunNormal` | internal/bitset/bitset.go:102-126 | any sets and clears keep the top used word non-zero and unused words zero |
| `BitSets.SetUpToSixtyFour` | internal/bitset/bitset.go:20-50 | the bit set is a set of the indices below n if and only if n is at most 65 |
| `BitSets.OpKeepsNormal` | internal/bitset/bitset.go:31-50 | setting and clearing any index keep the normal form |
| `BitSets.EqualsMeaning` | internal/bitset/bitset.go:52-62 | normal bit sets are equal if and only if they have the same bits, however many words they own |
| `BitSets.HasBitMeaning` | internal/bitset/bitset.go:20-29 | bit n of a word counts for 2^n |
| `BitSets.BitsInBytes` | internal/bitset/bitset.go:89-100 | bit n of word w is bit n % 8 of byte 8w + n / 8 |
| `BitSets.BitsFromBytes` | internal/bitset/bitset.go:64-87 | and bytes are read that way |
| `BitSets.BytesRoundTrip` | internal/bitset/bitset.go:64-100 | bytes followed by any number of zero bytes are read back as an equal bit set |
| `BitSets.BitSet.Test` | internal/bitset/bitset.go:20-29 | the method tests the bit that the index stands for |
| `BitSets.BitSet.Set` | internal/bitset/bitset.go:31-38 | the method sets that bit and no other, growing the words |
| `BitSets.BitSet.Clear` | internal/bitset/bitset.go:40-50 | the method clears that bit and drops zero words at the top |
| `BitSets.BitSet.Equals` | internal/bitset/bitset.go:52-62 | the loop compares the words in use |
| `BitSets.BitSet.FromBytes` | internal/bitset/bitset.go:64-87 | the loops fill up to whole words and read them, in normal form |
| `BitSets.BitSet.ToBytes` | internal/bitset/bitset.go:89-100 | the loop lays out the words in use |
| `Cursors.PageRead` | cursor_base.go:77-93 | a page written by the server is read with all its values, normalised |
| `Cursors.PageFormat` | cursor_base.go:77-93 | a page is the number of its rows, the values one behind the other, and a byte that is one if there is more |
| `Cursors.Cursor.ReadData` | cursor_base.go:77-93 | reading replaces the data by the page and takes over its flag, or keeps the flag and what was read before the error |
| `Cursors.Cursor.Next` | cursor_base.go:36-71 | the cursor moves by a row, or asks for a page exactly if the data is used up and there is more |
| `Cursors.FailedRequest` | cursor_base.go:57-69 | after a failed request Next panics if and only if its reply cannot be read as a page without a panic, and otherwise reports the error |
| `Cursors.LostConnectionPanics` | reliable_channel.go:33-37 | with the replies of a lost connection, which hold nothing to read, it panics |
| `Cursors.NextSees` | cursor_base.go:36-71 | one call yields the next row of what is left to see, or ends only if nothing is |
| `Cursors.ReadRows` | cursor_base.go:36-71 | a loop over Next sees the rows of all pages up to the first empty later page, each once and in order, with one request per page |
| `Cursors.SeesAllRows` | cursor_base.go:36-71 | it sees every row if and only if no page with rows follows an empty one |
| `Cursors.AsksForAllPages` | cursor_base.go:52-70 | it sends one request per further page if and only if none but the last is empty |
| `Retries.Send` | reliable_channel.go:24-57 | the reader is called exactly once: with the reply of the last send, which met its limit or ended a run without connection failures, or without a connection if a turn finds no channel; every earlier turn sends, is short of its limit, and follows or is a connection failure |
| `Retries.FixedLimitEnds` | reliable_channel.go:32-56 | with a fixed limit of at least one the loop ends within that many sends |
| `Retries.SuccessDoesNotEnd` | reliable_channel.go:41-52 | after a first connection failure it ends with the last attempt and no earlier |
| `Retries.EndsExactly` | reliable_channel.go:32-56 | after a failed first send the loop ends if and only if some turn has no channel or meets its limit |
| `Retries.LimitMet` | reliable_channel.go:39-52 | bounded limits are met unless one of them shrinks to no more than the attempts made |
| `Retries.GrowingLimitEnds` | reliable_channel.go:39-52 | limits that never shrink and stay bounded end the loop within that bound |
| `Retries.ShrunkLimitNeverMet` | reliable_channel.go:39-52 | limits that stay at or below the attempts already made are never met |
| `Retries.ShrunkLimitExample` | reliable_channel.go:39-52 | a concrete pattern with which the loop never ends although all later sends succeed |

## Left out

- Sockets, TLS, deadlines, logging, goroutine scheduling and data races of the Go memory model: channel actions
  are atomic steps; the server is a list of packets, pages or nodes.
- Cache, client, SQL and transaction operations, option setters and cache configurations: they write a request
  and read a reply.
- Reflection, struct tags, `unsafe` casts and user type factories: `[]T` and `[]*T` are not told apart, and floats
  are bit patterns.
- `Marshaller.Marshal`: binary enums, `Binarylizable` values, proxies, optimised marshaller objects and reflected
  slices and maps are no values of the model; registration of class names with the server is left out too.
- `Marshaller.Unmarshal`: the type codes of enums, classes, wrapped objects, proxies and optimised objects all
  end in `UnsupportedType`.
- `BinaryObjects.BinaryWriter.Finalize`: takes the outcome of the metadata put as given; `ObjectStore.Finalize`
  makes the put itself.
- `FieldReader.BinaryObject.Field`: a cache miss is not fetched from the server.
- The registry's fetch from the server when the cache misses (binary_schema.go:280-302): in `MetadataPuts` the
  answer is the action `Fetch`; the id mapper and the class name hash are parameters.
- Fields that a server sends for an enum type: the source keeps them in the record but never uses them.
- Clearing the registry (binary_schema.go:597-606): growth and `NoLostPut` are about runs without it.
- Values of types that the marshaller refuses are no values of the model, and neither is its error for them.
- The bounded queue of request ids can block a sender after the writer has stopped: `ChannelProtocol` has the
  bound but claims no liveness for it.
- Slices are sequences: the capacity of a buffer, and bytes that a Go slice shares with another, are not modelled.
- `Streams.OutputStream.EnsureAvailable`: the overflow panic beyond 2^31-1 bytes is a precondition.
- `MetadataCache.CopyMetadata`: says nothing of an enum whose two sides do not mirror each other, since the copy
  then depends on the iteration order.
- `Filters.GoEqual`: compares values without their Go types: `Scalar(PLong)` stands for `int` and `int64`, and
  `Unsigned(PLong)` for `uint` and `uint64`, which Go's `!=` tells apart, so that an `int` given to `ForAttribute`
  equals no attribute read from the server. Go compares `*apd.Decimal` by pointer, so that a decimal attribute read
  from the server equals no decimal given by a caller, and a `time.Time` together with its location; comparing two
  slices or maps panics in Go.
- `ChannelProtocol.TakeId`: request ids stay below 2^63.
- `Retries.Send`: takes some ending turn as given, since without one the loop does not end; each underlying send
  calls back once.
