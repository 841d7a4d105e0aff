# Verified models of the Sativa programmable-load software

Dafny models of five parts of the system software, with proofs of what they keep over whole runs, plus the hex
dump of the configuration tool. `dafny verify dfyconfig.toml` checks everything.

## The parts

**The configuration store** (`StoreTables`, `StoreOperations`, `StoreRefinement`, `DataStore`). confd keeps typed
values in five SQL tables: one of keys, one of values per type. Tables are maps indexed by their unique columns; a
call is a transaction that runs statement by statement, any set of statements may throw, and a throw rolls back.
The class `DataStore` changes the tables in place; the functions of `StoreOperations` say what each call does; the
refinement shows that the tables behave as one plain map from names to values.

**The configuration protocol** (`Wire`, `RpcSteps`, `RpcConnection`, `Cbor`, `CborCodec`, `RpcMessages`,
`RpcHandling`, `RpcServer`, `ConfdCalls`, `ConfdApi`, `ConfdSystem`, `ConfdRuns`). Headers are bytes, buffers are
arrays that are reused from message to message, payloads are CBOR item trees (kinds as in section 3.1 of RFC 8949).
The classes and methods are the client library and the daemon's request loop; `ConfdSystem` puts several clients,
their connections and the daemon together as a state machine and proves what holds over every run of calls in which
SQL statements, writes and reads may fail; `ConfdRuns` runs the library against the request loop and shows that a
call is a step of that machine. The CBOR library is a parameter; `CborCodec` shows that the encoding of RFC 8949
meets what is assumed of it.

**The system resource manager** (`SrmResources`, `SrmMessages`, `SrmAnswers`, `SrmDevice`, `SrmChain`, `SrmCore`,
`SrmProbe`, `SrmDriver`). Devices acquire clocks, regulators and interrupts, enable them, and answer messages of a
coprocessor. Every kernel call is an oracle that may fail; successful calls are logged, so that a device's net
holdings can be compared with its flags.

**Configuration files** (`ConfigFiles`, `ConfigIncludes`, `ConfigTraversal`, `ConfigTracks`, `ConfigRoutes`,
`ConfigReader`). Reading one file reads
what it includes, files and directories, guarded by the set of paths already opened.

**First boot** (`FirstBoot`, `FirstBootScript`). The script that partitions, formats and mounts the user partition,
as a state machine over its commands, with power that may fail after each and in the middle of mkfs. `Board` runs
the script's functions on a board's disk, kernel and mounts, and is shown to follow the state machine.

**Hex dump** (`HexDump`). Written through a stream with formatting state, and read back.

In each part, functions on values say what an operation does, methods on classes do it in place and are proved
equal to those functions, and lemmas prove what the operations mean and what every run of them keeps.

## Where code and comments disagree

The models follow the code.

- Comments on `setKey` promise that a Null key accepts any type. The update then prepares a DELETE without a table
  name and rolls back: `StoreRefinement.NullAcceptsNothing`.
- A comment on `deleteSubkeys` says that at least one more character is matched. The pattern ends in `.%`, which
  matches the prefix and its dot alone: `StoreTables.SubkeyPatternMeaning`.
- Key ids are 64 bits wide in the database and read into 32 bits: `StoreRefinement.TruncatedIds` says exactly when
  that goes wrong, and the theorems about runs ask for ids below 2^32.
- The daemon's length guard compares the payload length with the whole buffer. Messages between the two lengths
  are the error `PastEnd` here.
- `receivePacket` hands out its whole buffer, so a message without payload drags along bytes of an earlier one:
  `RpcConnections.RpcConnection.ReceivePacket`.
- The daemon builds a text value from the bytes of the item without their length. It is taken that a NUL follows
  them, so the value ends at the first NUL: `RpcMessages.ToProperty`.
- The write of a reply may throw after the update is committed: the client is dropped although its value is stored,
  `RpcHandling.UpdateOutcomes`.
- A CBOR null in an update passes as a boolean and is stored as 0; the reply to an update without a value declares
  too few pairs; `confd_get_bool` refuses a stored bool, which reads back as an integer.
- A read that fails between a header and its payload leaves the stream in the middle of a message:
  `RpcSteps.ReceivesFrame`. The theorems about runs ask that no read fails there.
- `rproc_srm_dev_bind` leaves clocks enabled when a regulator fails, a regulator request may be half done, and a
  prepare without children counts as prepared: `SrmDevice.BindOutcome`, `SrmMessages.HalfDoneRequest`,
  `SrmCore.RegistrationsMatch`. A probe whose last step fails undoes nothing: `SrmProbe.FailedProbeHolds`.
- An interrupt number of 0 takes the error path with result 0, so the interrupts are released and probing goes on.
- `expr` reports a result of 0 as a failure, so a disk without any partition ends the first-boot script.

## Model

| member | source | states |
|---|---|---|
| `StoreRefinement.EveryRun` | recipes-custom/sativa-confd/files/src/daemon/DataStore.cpp:179-476 | In every state reached from an empty database by any calls, with any statements throwing: ids and names are unique, a typed key has exactly one row in its type's table and no other, a Null key none; the tables stand for the plain map built by the committed calls alone, and a read returns that map's value and fails only with an SQL error, so the three consistency errors cannot occur (while ids fit 32 bits) |
| `StoreRefinement.TypesAreKept` | recipes-custom/sativa-confd/files/src/daemon/DataStore.cpp:265-295 | Over any run of public calls, a key present throughout keeps its stored type or becomes Null, and a Null key stays Null: only deletion gives a name a new type |
| `StoreRefinement.SetRefines` | recipes-custom/sativa-confd/files/src/daemon/DataStore.cpp:253-296 | setKey succeeds exactly when the map allows it and no statement it runs throws; then the map changes at that name to the normalised value, otherwise no table changes at all |
| `StoreRefinement.SetErrors` | recipes-custom/sativa-confd/files/src/daemon/DataStore.cpp:253-296 | Exactly when setKey throws for an invalid name, an invalid value or a change of type; anything else it throws is an SQL error |
| `StoreRefinement.InsertRefines` | recipes-custom/sativa-confd/files/src/daemon/DataStore.cpp:375-421 | insertKey succeeds exactly for a new, non-empty name with a value when no statement it runs throws and a row id is left; otherwise every table is as before |
| `StoreRefinement.UpdateRefines` | recipes-custom/sativa-confd/files/src/daemon/DataStore.cpp:430-476 | updateKey succeeds exactly when the key exists, does not go from Null to a typed value, and no statement it runs throws; the old type's row disappears with it; otherwise every table is as before |
| `StoreRefinement.DeleteRefines` | recipes-custom/sativa-confd/files/src/daemon/DataStore.cpp:327-333 | deleteSubkeys leaves exactly the names its pattern does not select, with their values and rows, and reports how many names disappeared |
| `StoreRefinement.GetRefines` | recipes-custom/sativa-confd/files/src/daemon/DataStore.cpp:179-237 | A read of consistent tables returns what the plain map holds, or an SQL error |
| `StoreRefinement.NullAcceptsNothing` | recipes-custom/sativa-confd/files/src/daemon/DataStore.cpp:265-271 | Where comment and code disagree: a Null key accepts no typed value at all, only Null again |
| `StoreRefinement.TruncatedIds` | recipes-custom/sativa-confd/files/src/daemon/DataStore.cpp:190-215 | Exactly when a key whose id does not fit 32 bits still reads back its own value |
| `StoreRefinement.TruncatedIdExample` | recipes-custom/sativa-confd/files/src/daemon/DataStore.cpp:190-215 | The key that follows id 2^32-1 cannot be read back |
| `StoreRefinement.ApplyCounter` | recipes-custom/sativa-confd/files/src/daemon/DataStore.cpp:375-421 | Every call advances the id counter by at most one, so fewer than 2^32 calls keep ids within 32 bits |
| `StoreTables.SubkeyPatternMeaning` | recipes-custom/sativa-confd/files/src/daemon/DataStore.cpp:327-331 | The LIKE pattern selects exactly the names below prefix + ".", ignoring ASCII case, if and only if the prefix has no wildcard character; the dot alone also matches |
| `DataStores.DataStore.GetKey` | recipes-custom/sativa-confd/files/src/daemon/DataStore.cpp:179-237 | The read on the tables as they are, equal to the specification and to the plain map |
| `DataStores.DataStore.SetKey` | recipes-custom/sativa-confd/files/src/daemon/DataStore.cpp:253-296 | The statement-by-statement write: new tables and result are those of the specification, consistency is kept, a failed write rolls back everything |
| `DataStores.DataStore.InsertKey` | recipes-custom/sativa-confd/files/src/daemon/DataStore.cpp:375-421 | Key row, value row, commit; any throw rolls back to the tables before |
| `DataStores.DataStore.UpdateKey` | recipes-custom/sativa-confd/files/src/daemon/DataStore.cpp:430-476 | Type column, old row, upsert, timestamp, commit; any throw, the missing table of a Null key among them, rolls back |
| `DataStores.DataStore.RemoveSubkeys` | recipes-custom/sativa-confd/files/src/daemon/DataStore.cpp:327-333 | Keys go with their value rows; for wildcard-free prefixes exactly the names below the prefix, counted |
| `DataStores.DataStore.WriteValueRow` | recipes-custom/sativa-confd/files/src/daemon/DataStore.h:125-150 | The value lands in the table of its own type, integers signed and booleans as 0 or 1, and nowhere else |
| `Wire.FrameRoundTrip` | recipes-custom/sativa-confd/files/src/lib/RpcConnection.cpp:61-87 | A frame at the front of a byte stream is taken off whole, leaving the rest, if and only if 8 + payload length is at most 65535 |
| `Wire.FrameBytes` | recipes-custom/sativa-confd/files/src/lib/RpcConnection.cpp:61-80 | The bytes of a frame: version 00 01, length low byte first, endpoint, tag, flags, zero, payload |
| `Wire.TakesMessages` | recipes-custom/sativa-confd/files/src/lib/RpcConnection.cpp:147-195 | Exactly which byte streams begin with a valid message, and which message that is |
| `Wire.ServerReadsFrame` | recipes-custom/sativa-confd/files/src/daemon/RpcServer.cpp:281-316 | The daemon decodes a frame to its endpoint, tag, flags and payload if and only if its length fits |
| `Wire.ServerTakes` | recipes-custom/sativa-confd/files/src/daemon/RpcServer.cpp:291-310 | Exactly which bytes the daemon takes for a request, and which its guard lets through although up to eight bytes are missing |
| `RpcConnections.RpcConnection.FormatPacket` | recipes-custom/sativa-confd/files/src/lib/RpcConnection.cpp:61-80 | The message laid out in the reused transmit buffer does not depend on what the buffer held; the tag is the next one, modulo 256 |
| `RpcConnections.RpcConnection.SendPacket` | recipes-custom/sativa-confd/files/src/lib/RpcConnection.cpp:61-87 | For every outcome of the write: the frame goes out whole, not at all, or as the prefix that was written, with the matching result; nothing else that a later call sees changes |
| `RpcConnections.RpcConnection.ReceivePacket` | recipes-custom/sativa-confd/files/src/lib/RpcConnection.cpp:147-195 | For every outcome of both reads: remaining stream, reused buffer and result are those of the specification, also after short reads, bad headers and failed payload reads |
| `RpcSteps.ReceivesMessages` | recipes-custom/sativa-confd/files/src/lib/RpcConnection.cpp:147-195 | A packet comes out exactly when no read it takes fails and a whole valid message is waiting; that message is then gone |
| `RpcSteps.HandsOutMessages` | recipes-custom/sativa-confd/files/src/lib/RpcConnection.cpp:147-195 | The packet equals the message on the wire if and only if it has a payload or the buffer was no longer than a header; else bytes of an earlier message follow its header |
| `RpcSteps.ReceivesFrame` | recipes-custom/sativa-confd/files/src/lib/RpcConnection.cpp:147-195 | A frame is received whole; a failed header read leaves it waiting; a failed payload read leaves its payload without a header |
| `RpcSteps.AcceptsOldest` | recipes-custom/sativa-confd/files/src/lib/RpcConnection.cpp:101-130 | The oldest waiting message is taken, and accepted exactly when endpoint and tag are those of the request just sent; the caller gets its payload |
| `RpcSteps.SendsFrame` | recipes-custom/sativa-confd/files/src/lib/RpcConnection.cpp:61-87 | Each request carries the next tag; of its frame exactly what the write took is on the socket, and the call goes on only if that was all |
| `RpcSteps.LeavesAfterFailure` | recipes-custom/sativa-confd/files/src/lib/RpcConnection.cpp:147-195 | What waits on the socket after every kind of failed receive, and which error it is |
| `RpcConnections.RpcConnection.SendPacketWithReply` | recipes-custom/sativa-confd/files/src/lib/RpcConnection.cpp:101-130 | For every outcome of write and reads: tag, both streams, buffer and result are those of the specification |
| `Cbor.ScanIsLookup` | recipes-custom/sativa-confd/files/src/daemon/RpcServer.cpp:401-434 | On maps with distinct string keys none of which is a proper prefix of the name, the last-match prefix scan returns what the exact first-match lookup returns |
| `Cbor.ScanVersusLookup` | recipes-pl/pl-common/files/include/load-common/Utils/Cbor.h:41-56 | For every map: its keys make the scan return what the lookup returns, whatever the values, if and only if no matching key follows the first exact one |
| `Cbor.CborMapGet` | recipes-pl/pl-common/files/include/load-common/Utils/Cbor.h:41-56 | The loop returns the value of the first pair with exactly this key |
| `Cbor.UnshadowedAgree` | recipes-pl/pl-common/files/include/load-common/Utils/Cbor.h:41-56 | When no matching key follows the first exact one, scan and lookup return the same value |
| `CborCodec.DecodesEncoded` | recipes-custom/sativa-confd/files/src/lib/wrapper/query.cpp:29-37 | The encoding of section 3 of RFC 8949 reads back every item of the protocol and leaves what follows it |
| `CborCodec.CodecIsFaithful` | recipes-custom/sativa-confd/files/src/daemon/RpcServer.cpp:312-320 | A library with that encoding meets everything the theorems about runs assume of the library |
| `RpcMessages.BuiltMapsAreClean` | recipes-custom/sativa-confd/files/src/daemon/RpcServer.cpp:531-604 | Every map built by the two serialisers and the daemon has distinct string keys, none a proper prefix of a name looked up in it |
| `RpcMessages.DeclaredSizeIsRight` | recipes-custom/sativa-confd/files/src/daemon/RpcServer.cpp:531-604 | The pairs added equal the declared map size, and all of them are kept, if and only if the reply is not that of an update without a value |
| `RpcMessages.QueryIsRead` | recipes-custom/sativa-confd/files/src/lib/wrapper/query.cpp:19-44 | Out of the client's query the daemon reads the key and no flags |
| `RpcMessages.UpdateIsRead` | recipes-custom/sativa-confd/files/src/lib/wrapper/update.cpp:22-51 | Out of the client's update the daemon reads the key and the value the item stands for |
| `RpcMessages.ReplyIsRead` | recipes-custom/sativa-confd/files/src/lib/wrapper/query.cpp:52-105 | Out of a query reply the client reads the value put in, absence as not-found, Null as null-value; found is true exactly when there is a value pair, so a missing value is never inspected |
| `RpcMessages.KeyNameIs` | recipes-custom/sativa-confd/files/src/daemon/RpcServer.cpp:388-437 | On every clean map: the key name is the definite text under key, empty if there is none, and an error otherwise |
| `RpcMessages.FlagsAre` | recipes-custom/sativa-confd/files/src/daemon/RpcServer.cpp:481-510 | On every clean map: single precision is asked for exactly by a true forceFloat; anything there but a boolean is an error |
| `RpcMessages.UpdateValueIs` | recipes-custom/sativa-confd/files/src/daemon/RpcServer.cpp:660-734 | On every clean map: the value under value, by kind: text, bytes, unsigned integer of any width, float, or boolean that is true only for true; anything else is an error |
| `RpcMessages.StrangeKeysSpoil` | recipes-custom/sativa-confd/files/src/daemon/RpcServer.cpp:401-410 | A map key that is no string makes every scan fail |
| `RpcMessages.PrefixOverrides` | recipes-custom/sativa-confd/files/src/daemon/RpcServer.cpp:417-432 | A later key that is any prefix of the wanted name, even the empty one, takes its place, as the comparison is as long as the key |
| `RpcMessages.ReplyValueIs` | recipes-custom/sativa-confd/files/src/lib/wrapper/query.cpp:52-105 | On every reply on which the scans are lookups: status 5 for no map, a key that is no string or a found that is no boolean, 3 without a true found, 6 for null, else the value |
| `RpcMessages.ReplyFields` | recipes-custom/sativa-confd/files/src/daemon/RpcServer.cpp:524-604 | The fields of every reply by exact lookup: the key, the value in the form it is sent or none for an update, and the flag under found or updated |
| `RpcMessages.CStringIs` | recipes-custom/sativa-confd/files/src/daemon/RpcServer.cpp:684-688 | A C string is the buffer up to its first NUL, or all of it |
| `RpcHandling.UpdateOutcomes` | recipes-custom/sativa-confd/files/src/daemon/RpcServer.cpp:636-743 | An update that is carried out is committed even when the write of its reply throws; its reply holds the key and a true updated flag; whatever else throws leaves every table as it was |
| `RpcHandling.QueryOutcomes` | recipes-custom/sativa-confd/files/src/daemon/RpcServer.cpp:450-473 | Every well-formed query is answered with what the plain map holds, narrowed to single precision exactly if that was asked for; a malformed flag is an error |
| `RpcHandling.Dispatches` | recipes-custom/sativa-confd/files/src/daemon/RpcServer.cpp:322-334 | Endpoint 1 is the query and 2 the update; any other, and any payload that is not a map, throws and changes nothing |
| `RpcHandling.ReplyFrameBytes` | recipes-custom/sativa-confd/files/src/daemon/RpcServer.cpp:832-845 | A reply carries the request's endpoint and tag, flag 1 and the serialised map |
| `RpcHandling.ValuelessUpdate` | recipes-custom/sativa-confd/files/src/daemon/RpcServer.cpp:736-742 | An update without a value changes nothing, and throws before any reply unless the key exists as Null |
| `RpcServers.ExtractKeyName` | recipes-custom/sativa-confd/files/src/daemon/RpcServer.cpp:388-437 | The scan returns the last matching text or the error any malformed pair causes, and on clean maps the exact lookup's text |
| `RpcServers.GetCfgQueryFlags` | recipes-custom/sativa-confd/files/src/daemon/RpcServer.cpp:481-510 | Single precision is asked for exactly when some matching pair is true; any malformed pair is an error |
| `RpcServers.ExtractUpdateValue` | recipes-custom/sativa-confd/files/src/daemon/RpcServer.cpp:660-734 | The scan returns the last matching value coerced by its item kind, or the error any malformed pair causes; null becomes false |
| `RpcServers.Client.ReplyTo` | recipes-custom/sativa-confd/files/src/daemon/RpcServer.cpp:825-863 | What is sent is the frame with the request's endpoint and tag and the reply flag, whatever the reused buffer held; when the write fails nothing is sent and an exception goes on |
| `RpcServers.BuildReply` | recipes-custom/sativa-confd/files/src/daemon/RpcServer.cpp:527-604 | The map built pair by pair is the reply of the specification |
| `RpcServers.RpcServer.SendKeyValue` | recipes-custom/sativa-confd/files/src/daemon/RpcServer.cpp:524-620 | Exactly one reply goes out, carrying that map, or its write throws |
| `RpcServers.RpcServer.DoCfgQuery` | recipes-custom/sativa-confd/files/src/daemon/RpcServer.cpp:450-473 | One reply with the stored value, or an exception and no reply; the store is untouched |
| `RpcServers.RpcServer.DoCfgUpdate` | recipes-custom/sativa-confd/files/src/daemon/RpcServer.cpp:636-743 | A committed write and one reply, a committed write whose reply is lost, or an exception and unchanged tables |
| `RpcServers.RpcServer.HandleClientRead` | recipes-custom/sativa-confd/files/src/daemon/RpcServer.cpp:272-342 | One delivered request, with any SQL or send failure: tables and reply of the specification, or the client is dropped and no other client touched; consistency is kept |
| `ConfdApi.ExtractValue` | recipes-custom/sativa-confd/files/src/lib/wrapper/query.cpp:52-105 | The loop over the reply returns the value, not-found, null-value or invalid-response as specified by position |
| `ConfdApi.Exchange` | recipes-custom/sativa-confd/files/src/lib/wrapper/query.cpp:118-134 | For every outcome of write and reads: the connection afterwards, and the decoded root or the status each failure turns into |
| `ConfdApi.Query` | recipes-custom/sativa-confd/files/src/lib/wrapper/query.cpp:115-170 | For every outcome: the connection afterwards, and the value item or the status each failure turns into |
| `ConfdApi.ConfdGetInt` | recipes-custom/sativa-confd/files/src/lib/wrapper/query.cpp:227-254 | For every outcome of write and reads: connection and answer of the call as specified; an unsigned item cast back to signed |
| `ConfdApi.ConfdGetReal` | recipes-custom/sativa-confd/files/src/lib/wrapper/query.cpp:256-285 | For every outcome of write and reads: connection and answer of the call as specified; a float widened, control items a type mismatch |
| `ConfdApi.ConfdGetBool` | recipes-custom/sativa-confd/files/src/lib/wrapper/query.cpp:287-322 | Likewise; what goes through the caller's pointer is stated too: an integer as a truth value although the call fails, a bool, or nothing |
| `ConfdApi.ConfdGetString` | recipes-custom/sativa-confd/files/src/lib/wrapper/query.cpp:174-199 | For every outcome of write and reads: connection and answer of the call as specified; the caller's buffer gets what the answer says, keeps its other bytes, and is untouched on failure |
| `ConfdApi.CopyText` | recipes-custom/sativa-confd/files/src/lib/wrapper/query.cpp:185-197 | The buffer holds the text, or its first capacity - 1 characters, then a terminator, then what was there before; the length reported is the text's |
| `ConfdApi.ConfdGetBlob` | recipes-custom/sativa-confd/files/src/lib/wrapper/query.cpp:201-225 | Likewise for blobs, without a terminator |
| `ConfdApi.ConfdSet` | recipes-custom/sativa-confd/files/src/lib/wrapper/update.cpp:71-126 | For every outcome of write and reads: connection and answer of the call as specified; success exactly when a decodable reply with matching endpoint and tag is taken |
| `ConfdCalls.ReplyDecodes` | recipes-custom/sativa-confd/files/src/lib/wrapper/query.cpp:52-322 | From the daemon's reply every getter delivers the stored value: integers modulo 2^64, a string as its longest prefix that fits with a terminator and its true length, a blob likewise; status 1 for another kind, 3 for no key, 6 for null |
| `ConfdCalls.BadReplies` | recipes-custom/sativa-confd/files/src/lib/wrapper/query.cpp:115-170 | Status 5 for replies that are no CBOR or no map, status 8 for buffers without room, before anything is sent |
| `ConfdCalls.TransportErrors` | recipes-custom/sativa-confd/files/src/lib/wrapper/query.cpp:156-167 | A failed system call is its own answer, any other transport error is status -1 |
| `ConfdCalls.RequestFields` | recipes-custom/sativa-confd/files/src/lib/wrapper/update.cpp:130-219 | The fields of every request by exact lookup: the key and, from each setter, its value in the kind and width it is sent |
| `ConfdCalls.BoolStoredFor` | recipes-custom/sativa-confd/files/src/lib/wrapper/query.cpp:287-322 | What goes through the pointer of confd_get_bool for each stored value: whether an integer is non-zero, a bool, or nothing |
| `ConfdCalls.RequestBytes` | recipes-custom/sativa-confd/files/src/lib/wrapper/update.cpp:71-85 | Setters go to endpoint 2 and getters to endpoint 1 under the call's tag |
| `ConfdCalls.SetItemIsSetValue` | recipes-custom/sativa-confd/files/src/lib/wrapper/update.cpp:130-219 | The item each setter sends is the value the daemon stores, null as false |
| `ConfdRuns.Call` | recipes-custom/sativa-confd/files/src/lib/wrapper/query.cpp:115-170 | One library call run against the daemon's request loop, with any failures: store, connection and answer are those of one step of the state machine the theorems about runs are about, and what the daemon is given is what the call has written |
| `ConfdRuns.ServedStep` | recipes-custom/sativa-confd/files/src/lib/RpcConnection.cpp:101-130 | That step is the client's half of the call, given what the daemon's half sends |
| `ConfdSystem.ReadsLatestWrite` | recipes-custom/sativa-confd/files/src/lib/wrapper/query.cpp:174-322 | Over any run of several clients: after a successful setter and no later committed write to the key, every answered getter returns what was set, for every int64, real, string up to its NUL and blob that fits a frame; a short buffer gets a prefix and the true length |
| `ConfdSystem.EveryAnswer` | recipes-custom/sativa-confd/files/src/daemon/RpcServer.cpp:272-342 | Over any run, with any failures: a call that finds only recent replies and is answered is answered rightly; an acknowledged setter has committed, a getter returns what the last committed write of any client left |
| `ConfdSystem.EveryState` | recipes-custom/sativa-confd/files/src/daemon/RpcServer.cpp:272-342 | In every reachable state the tables are consistent and each connection's waiting bytes are whole replies to its own requests, in order, under their tags |
| `ConfdSystem.TablesHoldLastWrites` | recipes-custom/sativa-confd/files/src/daemon/DataStore.cpp:253-296 | The tables hold for every key the value of the last committed setter of any client |
| `ConfdSystem.GetterIsAnswered` | recipes-custom/sativa-confd/files/src/lib/wrapper/query.cpp:115-170 | On an open connection in step, a getter without failures is answered, and the connection stays in step |
| `ConfdSystem.CleanCall` | recipes-custom/sativa-confd/files/src/lib/wrapper/query.cpp:115-170 | Such a call, setter or getter, does to store, connection and caller exactly what it does on the plain map; a refused one disconnects |
| `ConfdSystem.LaggingForGood` | recipes-custom/sativa-confd/files/src/lib/RpcConnection.cpp:101-130 | A connection that has fallen behind never catches up: with recent replies only, every later call reports a failure and never a wrong answer |
| `ConfdSystem.CallIsRight` | recipes-custom/sativa-confd/files/src/lib/RpcConnection.cpp:101-130 | If every unread reply belongs to one of the last 256 requests, an accepted reply answers the request just sent |
| `ConfdSystem.FewFaultsOnTime` | recipes-custom/sativa-confd/files/src/lib/RpcConnection.cpp:61-130 | Fewer than 256 failed writes and reads keep every unread reply within the last 256 requests |
| `ConfdSystem.WhenStaleIsAccepted` | recipes-custom/sativa-confd/files/src/lib/RpcConnection.cpp:114-126 | On a lagging connection the oldest reply is taken for the current one if and only if it is of the same kind and a multiple of 256 requests old |
| `ConfdSystem.TwoClients` | recipes-custom/sativa-confd/files/src/lib/wrapper/query.cpp:174-322 | From an empty daemon, without failures: any setter by one client and any getter for the key by another are both answered, the getter with what was set, if the four messages fit their frames |
| `ConfdSystem.CastsCancel` | recipes-custom/sativa-confd/files/src/daemon/DataStore.h:125-150 | All signed and unsigned casts and coercions between setter, store and getter cancel; bool and null come back as integers 0 and 1 only, and any other pair is a type mismatch |
| `SrmDevice.EnablesConserved` | recipes-kernel/linux/linux-mainline/git/drivers/remoteproc/rproc_srm_dev.c:154-444 | In every state of any life of binds, unbinds and messages with any failures: the net enables held on each parent clock equal the entries flagged for it, and on each regulator 1 if flagged and 0 otherwise |
| `SrmDevice.EndsReleased` | recipes-kernel/linux/linux-mainline/git/drivers/remoteproc/rproc_srm_dev.c:611-642 | Any life that ends in an unbind holds no parent clock, and only regulators whose last disable call failed |
| `SrmDevice.BindOutcome` | recipes-kernel/linux/linux-mainline/git/drivers/remoteproc/rproc_srm_dev.c:624-642 | A bind that succeeds holds everything; one that fails on a clock holds no clock; one that fails on a regulator leaves every clock enabled; its status is that of the call that failed |
| `SrmDevice.OrderOfCalls` | recipes-kernel/linux/linux-mainline/git/drivers/remoteproc/rproc_srm_dev.c:611-642 | A bind works on clocks, then regulators; an unbind the other way round |
| `SrmDevice.NotForIt` | recipes-kernel/linux/linux-mainline/git/drivers/remoteproc/rproc_srm_dev.c:553-555 | A message whose id does not occur in the device's name does nothing to it |
| `SrmResources.ClocksSetupAllOrNothing` | recipes-kernel/linux/linux-mainline/git/drivers/remoteproc/rproc_srm_dev.c:154-201 | All parents enabled on success, none on failure; it succeeds exactly when every call it needs does; calls and flags balance |
| `SrmResources.RegusSetupOutcome` | recipes-kernel/linux/linux-mainline/git/drivers/remoteproc/rproc_srm_dev.c:333-379 | On success every regulator is on or, in early boot, was reported off; on failure only those whose disable fails are on; calls and flags balance |
| `SrmResources.DisableRegusOutcome` | recipes-kernel/linux/linux-mainline/git/drivers/remoteproc/rproc_srm_dev.c:333-350 | Exactly the regulators whose disable call fails stay on |
| `SrmMessages.SetThenGet` | recipes-kernel/linux/linux-mainline/git/drivers/remoteproc/rproc_srm_dev.c:557-606 | After a successful set half the read-back cannot fail, reports the entry that was changed and, for a regulator, whether the requested enable was non-zero |
| `SrmMessages.HalfDoneRequest` | recipes-kernel/linux/linux-mainline/git/drivers/remoteproc/rproc_srm_dev.c:413-443 | A request is answered with an error although it switched the regulator if and only if the switch succeeded and setting the voltage failed |
| `SrmMessages.FindByIndex` | recipes-kernel/linux/linux-mainline/git/drivers/remoteproc/rproc_srm_dev.c:203-221 | On the lists the get loops build, searching by index is positional lookup |
| `SrmAnswers.GetClock` | recipes-kernel/linux/linux-mainline/git/drivers/remoteproc/rproc_srm_dev.c:580-585 | A GET of a clock changes nothing; its reply is a GET if and only if some clock answers, and then reports that clock's index, name cut to 15 characters and current rate; else it is an error |
| `SrmAnswers.GetRegulator` | recipes-kernel/linux/linux-mainline/git/drivers/remoteproc/rproc_srm_dev.c:586-590 | The same for a regulator: index, name, enable flag, millivolts, zero bounds |
| `SrmAnswers.SetClock` | recipes-kernel/linux/linux-mainline/git/drivers/remoteproc/rproc_srm_dev.c:223-249 | A SET of a clock makes exactly one rate call, to the clock found and with the requested rate, if and only if that rate is not zero, differs from the current one and the call succeeds; the reply is an error if and only if no clock answers or a needed call fails, and nothing is done then |
| `SrmAnswers.SetRegulator` | recipes-kernel/linux/linux-mainline/git/drivers/remoteproc/rproc_srm_dev.c:400-444 | A SET of a regulator: the switch call if the flag differs, then the voltage call with lower and upper bound if any is given, each with its failure; the flag and the reply for every outcome |
| `SrmAnswers.OtherMessages` | recipes-kernel/linux/linux-mainline/git/drivers/remoteproc/rproc_srm_dev.c:574-599 | Any other message or resource type is answered with an error and does nothing |
| `SrmAnswers.GetThenByIndex` | recipes-kernel/linux/linux-mainline/git/drivers/remoteproc/rproc_srm_dev.c:251-267 | A GET by name or index that is answered, followed by a GET by the returned index, reports the same resource |
| `SrmAnswers.GetThenByName` | recipes-kernel/linux/linux-mainline/git/drivers/remoteproc/rproc_srm_dev.c:251-267 | A GET by index followed by a GET by the returned name reports the same clock if and only if its name has at most 15 characters and no earlier clock shares it |
| `SrmAnswers.ReguThenByName` | recipes-kernel/linux/linux-mainline/git/drivers/remoteproc/rproc_srm_dev.c:446-474 | The same for regulators |
| `SrmChain.ExactlyOneReply` | recipes-kernel/linux/linux-mainline/git/drivers/remoteproc/rproc_srm_core.c:53-72 | Each message causes exactly one send attempt, by the first device whose name contains the id or else an error from the core, and no other device changes |
| `SrmChain.AddresseeIs` | recipes-kernel/linux/linux-mainline/git/drivers/remoteproc/rproc_srm_dev.c:553-555 | The addressee is the first device in whose name the id occurs anywhere |
| `SrmChain.EveryMessageAnswered` | recipes-kernel/linux/linux-mainline/git/drivers/remoteproc/rproc_srm_core.c:53-72 | Over any series of messages there are as many send attempts as messages, in order, each naming the device and resource type it answers |
| `SrmCore.RegistrationsMatch` | recipes-kernel/linux/linux-mainline/git/drivers/remoteproc/rproc_srm_core.c:154-241 | Over any run of prepares and unprepares: the children are populated as often as prepared; master and message driver are registered exactly that often if and only if every prepare since the core was last idle has found a child |
| `SrmCore.PrepareOutcome` | recipes-kernel/linux/linux-mainline/git/drivers/remoteproc/rproc_srm_core.c:154-223 | Exactly when a prepare succeeds, what it then counts and registers, that a failed one leaves no trace, and the status of a timeout and of a failed bind |
| `SrmCore.MissesPay` | recipes-kernel/linux/linux-mainline/git/drivers/remoteproc/rproc_srm_core.c:225-241 | Each childless prepare makes one unprepare, sooner or later, take back registrations that were never made |
| `SrmCore.WhenUnprepareMisses` | recipes-kernel/linux/linux-mainline/git/drivers/remoteproc/rproc_srm_core.c:225-241 | An unprepare does so exactly when all that keeps the core prepared is childless |
| `SrmCore.ChildlessExample` | recipes-kernel/linux/linux-mainline/git/drivers/remoteproc/rproc_srm_core.c:182-184 | With one prepare that found a child and one that did not, an unprepare takes back the only registrations and leaves the core prepared |
| `SrmCore.CoreDriver.PrepareCore` | recipes-kernel/linux/linux-mainline/git/drivers/remoteproc/rproc_srm_core.c:154-223 | Every failed prepare undoes exactly the steps it took |
| `SrmCore.CoreDriver.UnprepareCore` | recipes-kernel/linux/linux-mainline/git/drivers/remoteproc/rproc_srm_core.c:225-241 | Nothing when not prepared; otherwise one registration of each kind that is in place is taken back |
| `SrmProbe.AcquireOrUndo` | recipes-kernel/linux/linux-mainline/git/drivers/remoteproc/rproc_srm_dev.c:649-703 | Every clock, regulator and irq is acquired at most once; if probing stops before the component is added each acquired one has been released exactly once, otherwise exactly the listed ones are held |
| `SrmProbe.FailedProbeHolds` | recipes-kernel/linux/linux-mainline/git/drivers/remoteproc/rproc_srm_dev.c:649-703 | A failed probe still holds something if and only if everything was acquired, there was something to acquire, the notifier was registered, and only adding the component failed |
| `SrmProbe.ProbeErrors` | recipes-kernel/linux/linux-mainline/git/drivers/remoteproc/rproc_srm_dev.c:649-703 | The status of a failed probe: -12 for a clock or memory, -22 for a regulator, and what the kernel said for an interrupt, the notifier or the component |
| `SrmProbe.ProbedLists` | recipes-kernel/linux/linux-mainline/git/drivers/remoteproc/rproc_srm_dev.c:281-330 | The lists a probed device works with: clocks with position, name and parent of the node; one regulator per supply property in order, named without the last seven characters; interrupts with their numbers, none in early boot; nothing enabled |
| `SrmProbe.ProbedDevice.ProbeDevice` | recipes-kernel/linux/linux-mainline/git/drivers/remoteproc/rproc_srm_dev.c:649-703 | The probe with its error ladder leaves the lists, the acquisition log and the result of the specification |
| `SrmProbe.ProbedDevice.GetClocks` | recipes-kernel/linux/linux-mainline/git/drivers/remoteproc/rproc_srm_dev.c:281-330 | The loop appends one entry per clock, or releases all of them in order on the first failure |
| `SrmProbe.ProbedDevice.GetRegulators` | recipes-kernel/linux/linux-mainline/git/drivers/remoteproc/rproc_srm_dev.c:488-534 | The loop over properties appends one entry per supply, or releases all of them in order on the first failure |
| `SrmProbe.ProbedDevice.GetInterrupts` | recipes-kernel/linux/linux-mainline/git/drivers/remoteproc/rproc_srm_dev.c:75-151 | The loop appends one entry per irq or releases all; an irq number of 0 releases all and reports success |
| `SrmDriver.Driver.ClocksSetup` | recipes-kernel/linux/linux-mainline/git/drivers/remoteproc/rproc_srm_dev.c:169-201 | The list loop with its rollback: flags, calls and result of the specification |
| `SrmDriver.Driver.ClocksUnsetup` | recipes-kernel/linux/linux-mainline/git/drivers/remoteproc/rproc_srm_dev.c:154-167 | The list loop disables each flagged parent once, in order |
| `SrmDriver.Driver.RegusSetup` | recipes-kernel/linux/linux-mainline/git/drivers/remoteproc/rproc_srm_dev.c:352-379 | The list loop with its rollback and the early-boot check |
| `SrmDriver.Driver.RegusUnsetup` | recipes-kernel/linux/linux-mainline/git/drivers/remoteproc/rproc_srm_dev.c:333-350 | The list loop keeps the flag of a regulator whose disable fails |
| `SrmDriver.Driver.Bind` | recipes-kernel/linux/linux-mainline/git/drivers/remoteproc/rproc_srm_dev.c:624-642 | Clocks, then regulators; the state and every kernel call as specified |
| `SrmDriver.Driver.Unbind` | recipes-kernel/linux/linux-mainline/git/drivers/remoteproc/rproc_srm_dev.c:611-622 | Regulators, then clocks; the state and every kernel call as specified |
| `SrmDriver.Driver.ClockFind` | recipes-kernel/linux/linux-mainline/git/drivers/remoteproc/rproc_srm_dev.c:203-221 | The first clock that answers to the index or, without one, to the name |
| `SrmDriver.Driver.ReguFind` | recipes-kernel/linux/linux-mainline/git/drivers/remoteproc/rproc_srm_dev.c:381-398 | The first regulator that answers to the index or, without one, to the name |
| `SrmDriver.Driver.ReguSetCfg` | recipes-kernel/linux/linux-mainline/git/drivers/remoteproc/rproc_srm_dev.c:400-444 | Switch, then voltage, each able to fail on its own |
| `SrmDriver.Driver.NotifyCb` | recipes-kernel/linux/linux-mainline/git/drivers/remoteproc/rproc_srm_dev.c:537-609 | The addressed device sends exactly one message; any other leaves itself and the endpoint alone and lets the chain go on |
| `SrmDriver.RpmsgCb` | recipes-kernel/linux/linux-mainline/git/drivers/remoteproc/rproc_srm_core.c:53-72 | Over the chain of device objects: exactly one send attempt, by the first match or the core, and every other device object is unchanged |
| `ConfigRoutes.SucceedsIffReachedOnce` | recipes-custom/sativa-confd/files/src/daemon/Config.cpp:29-93 | With every file individually valid, start-up succeeds if and only if no path is reached along two routes, through files and directories as they are on the file system; cycles and diamonds both fail |
| `ConfigRoutes.OpensWhatIsReached` | recipes-custom/sativa-confd/files/src/daemon/Config.cpp:29-93 | A successful start-up has opened exactly the paths the includes lead to |
| `ConfigRoutes.DirectivesFollowed` | recipes-custom/sativa-confd/files/src/daemon/Config.cpp:266-313 | In a successful start-up every directive of every document read names what exists; a file it names has been opened, and of a directory it names every regular file with extension .toml |
| `ConfigIncludes.KidsAreIncludes` | recipes-custom/sativa-confd/files/src/daemon/Config.cpp:266-313 | The include loops ask for exactly the files named and the regular .toml entries of the directories named, in order of directives and listing, and fail if a directive is empty or names nothing |
| `ConfigIncludes.Joins` | recipes-custom/sativa-confd/files/src/daemon/Config.cpp:130-136 | The path of the database: an absolute name replaces the directory, otherwise exactly one slash stands between them |
| `ConfigTraversal.ReadSucceedsIff` | recipes-custom/sativa-confd/files/src/daemon/Config.cpp:29-93 | For every file graph: reading succeeds if and only if the includes, read off the file system, unfold into a finite tree of valid files in which no path repeats |
| `ConfigTraversal.ReadSettings` | recipes-custom/sativa-confd/files/src/daemon/Config.cpp:100-163 | Then every file is read once, the allow list is the preorder concatenation of the files' entries, and each scalar comes from the last file in preorder that sets it |
| `ConfigTraversal.ReadGivesTree` | recipes-custom/sativa-confd/files/src/daemon/Config.cpp:29-93 | From any settings: a successful read has walked an unseen finite tree and done what visiting it in preorder does |
| `ConfigTraversal.TreeIsRead` | recipes-custom/sativa-confd/files/src/daemon/Config.cpp:29-93 | From any settings: every unseen finite tree of valid files is read to the end |
| `ConfigTraversal.SectionsEffect` | recipes-custom/sativa-confd/files/src/daemon/Config.cpp:42-74 | A document's sections succeed exactly when each is valid, and then set what they name and nothing else |
| `ConfigTraversal.FailedSections` | recipes-custom/sativa-confd/files/src/daemon/Config.cpp:42-163 | What the settings are when a section throws: earlier sections have taken effect, of the storage section the directory, of the allow list the entries before the bad one |
| `ConfigReader.Config.ReadFile` | recipes-custom/sativa-confd/files/src/daemon/Config.cpp:29-93 | The recursion over the static settings, also where it throws half-way, terminates with unopened paths as its measure |
| `ConfigReader.Config.ReadInclude` | recipes-custom/sativa-confd/files/src/daemon/Config.cpp:266-287 | Missing and empty paths throw; a directory contributes its files, any other path itself |
| `ConfigReader.Config.ProcessIncludeDirectory` | recipes-custom/sativa-confd/files/src/daemon/Config.cpp:297-313 | Regular files with the extension are read in directory order until one throws |
| `ConfigReader.Config.ReadRoot` | recipes-custom/sativa-confd/files/src/daemon/Config.cpp:29-93 | Start-up succeeds exactly on include trees without repeats, and leaves their settings |
| `ConfigReader.Config.ReadRpcSection` | recipes-custom/sativa-confd/files/src/daemon/Config.cpp:100-113 | Socket path and masked mode; an empty path throws and changes nothing |
| `ConfigReader.Config.ReadStorageSection` | recipes-custom/sativa-confd/files/src/daemon/Config.cpp:121-137 | The directory is stored even when the check after it throws |
| `ConfigReader.Config.ReadAccessSection` | recipes-custom/sativa-confd/files/src/daemon/Config.cpp:144-163 | Entries before one that throws stay in the allow list |
| `FirstBoot.NeverReformatted` | recipes-core/sativa-root-overlays/files/init-overlays:106-128 | Over any sequence of boots with power lost after any command: mkfs never runs on a partition that carries its final name, and init runs only with the whole directory skeleton on the mounted partition |
| `FirstBoot.DataSurvives` | recipes-core/sativa-root-overlays/files/init-overlays:66-104 | Once the partition carries its final name, it keeps it, and no later boot, failure or crash loses a directory written back to it |
| `FirstBoot.AlwaysRecovers` | recipes-core/sativa-root-overlays/files/init-overlays:106-128 | If the disk could be booted at first, then after any boots, failures and power losses, turning it on and leaving it alone reaches init within two boots |
| `FirstBoot.ReachesInitIff` | recipes-core/sativa-root-overlays/files/init-overlays:46-61 | For every disk: left alone it reaches init, within two boots, if and only if there are exactly seven partitions other than the eighth, or the eighth and at least eight others; otherwise never |
| `FirstBoot.FreshDiskReaches` | recipes-core/sativa-root-overlays/files/init-overlays:106-128 | From a fresh table of exactly seven partitions one boot creates the eighth, named userdata-raw, and the next reaches init |
| `FirstBoot.FormatOutcome` | recipes-core/sativa-root-overlays/files/init-overlays:65-104 | An uninterrupted format leaves exactly the nine directories and those of the hooks on the eighth partition, then named userdata, and touches no other partition |
| `FirstBoot.MountsOnlyWhatIsThere` | recipes-core/sativa-root-overlays/files/init-overlays:26-39 | A mount succeeds only for a partition the kernel knows with a complete file system, the overlay only over both its directories, and init only after both |
| `FirstBoot.Names` | recipes-core/sativa-root-overlays/files/init-overlays:115-120 | Finished means that the eighth partition is named userdata; raw means that some name contains userdata-raw |
| `FirstBoot.EmptyTableStays` | recipes-core/sativa-root-overlays/files/init-overlays:106-109 | A disk without any partition is left alone for good |
| `FirstBoot.OtherRawName` | recipes-core/sativa-root-overlays/files/init-overlays:115-120 | Exactly when a finished disk is sent to mkfs after all: when another partition's name contains the raw name |
| `FirstBoot.AlwaysInv` | recipes-core/sativa-root-overlays/files/init-overlays:26-128 | What holds before every command of every boot |
| `FirstBootScript.Board.InitUserdataPart` | recipes-core/sativa-root-overlays/files/init-overlays:46-61 | Fix-up, create, reboot: the state is that of the commands that ran, however far power and failures let it get |
| `FirstBootScript.Board.InitUserdataFormat` | recipes-core/sativa-root-overlays/files/init-overlays:65-104 | Format, mount, skeleton, hooks, unmount, rename: likewise, and it goes on only with everything done |
| `FirstBootScript.Board.MountUserdata` | recipes-core/sativa-root-overlays/files/init-overlays:34-42 | Mounting needs a known partition with a complete file system |
| `FirstBootScript.Board.Script` | recipes-core/sativa-root-overlays/files/init-overlays:106-128 | The whole script makes exactly the steps of the state machine until init, failure, reboot or power loss |
| `FirstBootScript.Board.Live` | recipes-core/sativa-root-overlays/files/init-overlays:26-128 | Boot after boot, the board's state is the state machine's after all steps, so the theorems above hold of it |
| `HexDump.DumpReadsBack` | recipes-custom/sativa-confd/files/src/util/HexDump.h:153-174 | For every buffer: parsing the dump returns the buffer, line i carries offset 16*i, every line but the last holds 16 bytes, the text column shows printable characters as they are and periods for all others |
| `HexDump.DumpsDiffer` | recipes-custom/sativa-confd/files/src/util/HexDump.h:153-174 | Different buffers have different dumps |
| `HexDump.LineReads` | recipes-custom/sativa-confd/files/src/util/HexDump.h:98-126 | Every line, with an offset of any size and up to 16 bytes, reads back as its offset, bytes and text |
| `HexDump.LineLayout` | recipes-custom/sativa-confd/files/src/util/HexDump.h:98-126 | Where things stand in a line: eight digits of offset, two spaces, 49 characters of hex column, the text column of printable characters and periods, a line end |
| `HexDump.DumpBuffer` | recipes-custom/sativa-confd/files/src/util/HexDump.h:153-174 | The loop appends exactly the dump of the buffer and leaves the stream's formatting as it was |
| `HexDump.DumpHexLine` | recipes-custom/sativa-confd/files/src/util/HexDump.h:114-126 | One line is appended; fill, base and alignment are put back |
| `HexDump.DumpLineBody` | recipes-custom/sativa-confd/files/src/util/HexDump.h:98-112 | The hex column is padded to its width, left-aligned, before the text |
| `HexDump.DumpBytesAsHex` | recipes-custom/sativa-confd/files/src/util/HexDump.h:75-87 | Two digits and a space per byte are appended; the stream's flags and fill are put back |

## Left out

- The CBOR library's own code: it is a parameter (`Cbor.Lib`) assumed only to decode the items of the protocol from their encoding and to leave doubles alone. Conversion between float widths is a parameter of it; reals are bit patterns other than NaN, by their type `Real64`.
- SQLite itself, its file, and the columns for timestamps, metadata and value-row ids; a statement either does what its text says or throws.
- `deleteKey`, `hasChildren`, `confd_delete`, `ValidateResponse`: broken or unimplemented, and without an endpoint.
- NUL characters inside field names, and null pointers as arguments of library calls.
- Sockets, libevent, accepting, signals, watchdogs, logging and command lines; a request arrives whole, and calls are served one at a time under the connection's lock.
- ConfdSystem.ReadsLatestWrite: partial writes and reads that fail between a header and its payload are not part of the runs, they are in `RpcSteps` only; messages longer than a frame are excluded, as their length field wraps.
- ConfdRuns.Call: one client's call at a time, as the daemon serves them; that calls follow each other is `ConfdSystem.RunSystem`.
- Cbor.CborMapGet: keys that are not strings are skipped, where the library would assert.
- Errno values: a failed system call is the answer `SystemError`.
- `ClientBase`: repeats the framing.
- Allow-list enforcement (the daemon never checks it), user and group lookup, TOML parsing: documents are already parsed, an allow entry is valid or not, an empty array counts as one of the wrong type.
- ConfigReader.Config.ReadFile: paths are compared as written, as in the code, so two spellings of one file are two paths.
- Interrupt disable depth, device-node reference counts, real clock rates and regulator physics: results of kernel calls are parameters. A clock's parent does not change.
- SrmProbe.AcquireOrUndo: asks for fewer properties than 2^32 - 1 on a device node, as entries are numbered in 32 bits.
- SrmCore: the order in which components are bound, and the wait itself; whether all are bound in time, and with which status, is a parameter.
- FirstBoot.NeverReformatted: asks that no other partition's name contains the raw name at the start (`FirstBoot.OtherRawName` shows what happens else), and that a user partition that already carries its final name was initialised.
- In the first-boot script, reading the partition table does not fail, changing one partition entry is atomic, the running system only adds directories, and directories stand for their whole path.
- HexDump.DumpBuffer: asks for a stream with default formatting, as its callers pass; `dumpStream`, the same loop over an input stream, is not modelled.
- Device trees, recipes, kernel configurations and flash layouts: data.
