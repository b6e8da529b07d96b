# Verification of AZPFS

AZPFS serves a directory over a byte stream: a client-side stub (`ClientHandler`) turns
filesystem calls into framed messages, a server runs them against one shared, locked backend,
and `DiskFs` is such a backend over a directory on disk. This project models that system in
Dafny and proves what it is for: calling the stub is the same as calling the backend
atomically, the bytes in between can be cut, interleaved and reordered without effect, and the
backend that takes paths behaves as one that takes inodes.

Check everything with `dafny verify dfyconfig.toml`.

## How the project is laid out

| files | what they hold |
|---|---|
| `Bits`, `Bytes`, `Utf8`, `ScalarValues`, `FileTypes`, `Messages` | the 18 message layouts as a concrete writer and reader over bytes (UTF-8 validity by the grammar of section 4 of RFC 3629, which is shown to be the encoding of scalar values of its section 3) |
| `WireLayout`, `WireCalls` | every frame byte by byte, by position and number, apart from that writer and reader; the frames of each operation and of each outcome |
| `MessageLaws`, `Oversized` | round trip on its exact domain, canonical re-encoding, stability under more input, prefix-freeness; what becomes of messages that do not fit |
| `NeedMore` | when a buffer is malformed, and when more bytes can still make it a message |
| `Codec` | `decode`/`encode` over a mutable buffer, the end-of-input test on collected errors, the framed reader, segmentation invariance |
| `DirEntries` | the packed directory listing: parser and serialiser loops, bijection |
| `Chunks`, `ChunkDuplicates` | splitting a read into chunks and reassembling them in any order; what duplicates do |
| `Conversions` | times, attributes, statistics and errors through their messages |
| `Stub` | the operations of the backend interface, what message each becomes, what each wait loop returns, and transparency of one call |
| `Callers` | what each wait makes of an inbox with other messages in it |
| `Rpc`, `RpcInvariant`, `RpcSteps`, `RpcSafety`, `RpcProgress`, `RpcCompletion`, `RpcQueue`, `RpcWrap` | the protocol as a step system with any number of clients; its invariant; conservation, id safety, linearizability, exclusion, transparency; termination, absence of deadlock, and completion of every request; the bounded queue; what goes wrong when ids are reused too early |
| `EndToEnd` | a read and a listing from the server's bytes to the caller's |
| `Client`, `Server` | the client handler, the server's message handler and its two loops as classes and methods, proved against the step system |
| `Disk`, `InodeTree`, `DiskRefinement`, `DiskFs` | a disk as a set of paths, the tree of inodes it stands for, what each system call does to that tree, and the backend class with its inode index |
| `DiskPaths` | those operations once more on paths alone, flag by flag and error by error |
| `DiskService`, `RemoteDisk` | that backend behind the protocol: what clients see through their stubs, in inodes and in paths |
| `Dissector` | the Wireshark dissector's length function, loop and reassembly, against the codec |

A step of `Rpc` is one atomic action of one party: send, bytes arriving in either direction, a
task spawned for a decoded message, a task taking the lock and executing, one reply entering the
32-slot queue (chunks in any order), a task finishing and releasing the lock, the writer taking
a reply off the queue, the receive loop routing a message, a caller returning or giving up. The
backend is any function from its state and an operation to a new state and an outcome (`Exec`);
`Sane` says that outcomes have the type the operation promises, that names in listings are at most 255
bytes, error texts at most 65535 bytes, and contents below 2^63 bytes. Fields that only record history
(`delivered`, `sentAt`, `returnedAt`, `at`, `upMsgs`, `downMsgs`, `log`, the call of a reply) are
never consulted by a step's effect on what travels.

`Reachable` covers every run. `ReachableUnwrapped` covers the runs in which fewer than 2^32 messages
are sent while a call is outstanding; only the statements that say so assume it.

`DiskFs` keeps two things: the index from inodes to paths, and the disk it runs system calls on.
Its methods make the calls in the order the source makes them; their contracts say what that does
to the tree of inodes (`Abs(disk)`), in which every operation changes one inode or one subtree.
`Valid` says that every registered inode still on the disk is registered under its own path. A request for
an inode acts on its `Target`, the inode that now stands at its registered path: itself as long as it is on the
disk, and otherwise nothing, or a stranger (`DiskFs.TargetIsSelf`). The contracts cover all three cases, and the
methods demand no more than `Sound`, which every one of them keeps.

## What turned out false

- Request ids: a waiting call is handed the reply to it if and only if fewer than 2^32 messages have been sent
  since (`RpcSteps.DispatchedToOwner`, `RpcSafety.RoutedToCaller`); beyond that the reply goes to the newest call
  with the id, if that one waits, and otherwise to nobody (`RpcSteps.DispatchedToNewest`). Nothing checks the bound
  (`src/core/fs/handler.rs:155` has a TODO). From any reachable state with a reply about to be routed a run leads to
  its misdelivery (`RpcWrap.Misdelivers`), and over every backend a state can be reached in which a call has
  returned although its request was never handled (`RpcWrap.ReturnsUnhandled`).
- A request for an inode that is registered but gone acts on whatever stands at its old path: nothing, or another
  file (`DiskFs.TargetIsSelf`; an instance is `DiskFs.GoneInodeExample`).
- Reassembly counts duplicates: it returns the data if and only if the messages up to some point bring each chunk
  exactly once (`ChunkDuplicates.ReassemblyExact`). Otherwise it may stop too early with other bytes
  (`Chunks.DuplicateReturnsEarly`) or wait for ever with every chunk there (`ChunkDuplicates.DuplicateHangs`). So
  exactly-once enqueueing is proved on the server's side (`RpcSafety.Conservation`). The dissector's reassembly
  does tolerate duplicates.
- Rename removes the destination before it tries to move the source, having checked only their types.
  `DiskFs.Destructive` is the exact case, readable before the call, in which a file is lost and the rename fails:
  the destination is the source itself, or a special file in a directory below the source. In every other case
  rename is the inode-level rename.
- Rename re-keys only the inode it was asked for, so afterwards the index agrees with the disk if and only if no
  other registered inode moved along (`DiskFs.AgreesWhenMoved`; an instance is `DiskFs.MovedDirectoryExample`). It does not recover:
  looking up an inode that moved along finds it again, yet its stale entry stays (`DiskFs.StaleForGood`).
- The backend interface has rename fail whenever source and destination differ in type (`src/core/fs/mod.rs:312-314`).
  The code checks this for directories and regular files in the way only: another kind of file is replaced by
  anything but a directory that holds it (`InodeTree.OtherKindsGiveWay`; an instance is `InodeTree.DirectoryOntoPipe`).
  The inode-level rename follows the code.
- The dissector takes every SET_ATTR_REQ to have all six fields; on a stream of well-sized messages its frame
  boundaries are the decoder's if and only if that holds (`Dissector.SplittersAgree`).
- A decoder that asks for more bytes may be asking in vain: an error frame is waited for to its end although the text
  that has come can no longer be valid (`NeedMore.WaitsForNothing`). Exactly otherwise a buffer that is too short is
  the beginning of a message (`NeedMore.NeedMoreExact`).
- Encoding is undone by decoding if and only if every length fits its field and the INIT version is below 16
  (`MessageLaws.RoundTrip`); any other message is read as its own fields cut it, with what was cut off read as the
  next frames (`Oversized.OversizedDecodes`). A serialised listing is parsed back if and only if every name has at most
  255 bytes.

## Model

| member | source | states |
|---|---|---|
| Messages.BuildFieldMask | src/core/protocol/messages.rs:88-97 | The mask accumulated one conditional `or` at a time is the specification's mask, for all 64 presence patterns |
| MessageLaws.MaskBits | src/core/protocol/messages.rs:87-110 | Reading the mask byte tells exactly which of the six fields are present |
| MessageLaws.VersionBits | src/core/protocol/messages.rs:25-31 | A version survives its four bits if and only if it is below 16 |
| MessageLaws.ReadBackSetAttr | src/core/protocol/messages.rs:83-111 | For every presence pattern and all values, the reader consumes exactly the present fields, in order, from any longer buffer |
| MessageLaws.RoundTrip | src/core/protocol/messages.rs:12-206 | Decoding an encoded message with any bytes behind it returns that message and those bytes if and only if every length fits its field and the version its bits |
| MessageLaws.Canonical | src/core/protocol/messages.rs:12-206 | An accepted frame re-encodes to itself with only the reserved bits cleared; it is reproduced exactly if and only if they were zero |
| MessageLaws.ExtendDecode | src/core/protocol/codec.rs:14-27 | A decoded message and a rejection both survive any further bytes |
| MessageLaws.DecodeConsumes | src/core/protocol/codec.rs:14-27 | A success leaves a suffix of the buffer and has consumed at least 5 bytes |
| MessageLaws.EncodeAppends | src/core/protocol/codec.rs:33-42 | A frame is laid in front of what follows without depending on it, and is at least 5 bytes long |
| MessageLaws.PrefixFree | src/core/protocol/messages.rs:12-206 | No encoding of a well-sized message is a proper prefix of another |
| Oversized.OversizedDecodes | src/core/protocol/messages.rs:12-206 | Decoding any encoded message at all yields that message cut to what its length fields say, with the bytes cut off left in front of the rest of the stream |
| Oversized.TornTextIsMalformed | src/core/protocol/messages.rs:13-23 | An error text cut in the middle of a character makes the frame malformed |
| Oversized.FitsAsItIs | src/core/protocol/messages.rs:12-206 | The cut changes nothing exactly for the messages that fit |
| ScalarValues.ValidExactly | src/core/protocol/messages.rs:20-22 | A text is accepted if and only if its bytes encode some sequence of Unicode scalar values, each in the fewest bytes |
| WireLayout.TypeAndId | src/core/protocol/messages.rs:12-206 | Of each of the 18 messages, byte 0 is its literal type and bytes 1 to 4, read big-endian, the request id |
| WireLayout.BareLayout | src/core/protocol/messages.rs:113-118 | SUCCESS_RES and STATS_REQ are these five bytes |
| WireLayout.InodeLayout | src/core/protocol/messages.rs:52-193 | LOOKUP_RES, GET_ATTR_REQ, READDIR_REQ and RM_REQ have 13 bytes, the inode in bytes 5 to 12 |
| WireLayout.ErrorLayout | src/core/protocol/messages.rs:13-23 | The error code is one of the bytes 0 to 4 at position 5; length and text follow |
| WireLayout.HandshakeLayout | src/core/protocol/messages.rs:25-39 | A version below 16 stands in the upper four bits of byte 5, an answer in the topmost bit |
| WireLayout.LookupLayout | src/core/protocol/messages.rs:41-51 | Directory, length byte and name of LOOKUP_REQ by position |
| WireLayout.FileAttrLayout | src/core/protocol/messages.rs:60-78 | The 68 bytes of FILE_ATTR_RES by position, the type code 0 to 6 in the upper three bits of byte 5 |
| WireLayout.SetAttrLayout | src/core/protocol/messages.rs:83-111 | Byte 13 is the sum of 4, 8, 16, 32, 64 and 128 for the fields present, and each of those stands behind the ones before it that are present too |
| WireLayout.StatsLayout | src/core/protocol/messages.rs:120-131 | The 57 bytes of STATS_RES by position |
| WireLayout.CreateLayout | src/core/protocol/messages.rs:135-149 | The fields of CREATE_REQ by position, byte 19 being 0x80 for a directory |
| WireLayout.ReadLayout | src/core/protocol/messages.rs:151-157 | Inode, offset and length of READ_REQ by position |
| WireLayout.ChunkLayout | src/core/protocol/messages.rs:165-174 | Total, chunk length, offset and bytes of READ_RES by position, the length before the offset |
| WireLayout.WriteLayout | src/core/protocol/messages.rs:177-187 | Inode, offset, length and bytes of WRITE_REQ by position |
| WireLayout.MoveLayout | src/core/protocol/messages.rs:195-206 | Inode, destination directory, length byte and name of MOVE_REQ by position |
| WireLayout.EntryLayout | src/core/fs/mod.rs:88-100 | Inode, type code, length byte and name of a directory entry by position |
| WireLayout.ListingLayout | src/core/protocol/dir_entry.rs:20-26 | A listing is its entries in order, one right behind the other |
| NeedMore.MalformedExact | src/core/protocol/codec.rs:14-56 | A buffer is rejected if and only if its first byte exceeds 0x11, its error code 4 or its file type 6, or its complete error text is not valid; every other failure asks for more |
| NeedMore.CanEndExact | src/core/protocol/messages.rs:20-22 | A text that has begun can be completed to a valid one of given length if and only if it is whole characters, and perhaps the beginning of one that the bytes to come suffice to end |
| NeedMore.NeedMoreExact | src/core/protocol/codec.rs:14-56 | When the decoder asks for more, some continuation is a message if and only if it is not an error frame whose text has begun and can no longer end |
| NeedMore.WaitsForNothing | src/core/protocol/codec.rs:14-56 | A concrete error frame for which it goes on asking though no continuation is a message |
| Codec.VariantsAreTagDispatch | src/core/protocol/codec.rs:14-56 | Trying all 18 layouts and searching the nested errors for an end of input distinguishes success, need-more and malformed exactly as dispatching on the tag does |
| Codec.DecodeFrom | src/core/protocol/codec.rs:14-31 | One decode on the mutable buffer: a message and the rest, or nothing consumed when more is needed or the bytes are malformed |
| Codec.EncodeAllSnoc | src/core/protocol/codec.rs:33-44 | Encoding one more message appends exactly its frame to the encoding of those before it |
| Codec.DrainThenFeed | src/core/protocol/codec.rs:14-31 | Decoding what there is and then feeding more gives what decoding everything at once gives, error included |
| Codec.SegmentationInvariance | src/core/protocol/codec.rs:14-31 | However a byte stream is cut, the messages up to the same first error are the same |
| Codec.DrainEncoded | src/core/protocol/codec.rs:14-44 | In front of any bytes, encoded well-sized messages decode to themselves and leave those bytes |
| Codec.StreamRoundTrip | src/core/protocol/codec.rs:14-44 | A reader fed the encoding of any well-sized messages, cut anywhere, yields exactly those messages with nothing left over |
| Codec.StreamUpTo | src/core/protocol/codec.rs:14-31 | However the stream is cut, what stands behind complete messages is kept while it is too short and ends the stream once it is malformed, and the messages before it are delivered |
| Codec.FramedReader.Receive | src/core/fs/handler.rs:22-30 | The reader's loop refines the stream function; after a malformed frame the stream has ended |
| DirEntries.PackRoundTrip | src/core/protocol/dir_entry.rs:9-26 | Parsing a serialised listing gives it back if and only if every name has at most 255 bytes |
| DirEntries.UnpackedIsPacked | src/core/protocol/dir_entry.rs:9-18 | Whatever bytes parse, serialising the entries gives those bytes back |
| DirEntries.UnpackConcat | src/core/protocol/dir_entry.rs:9-18 | Parsing a concatenation of well-formed payloads concatenates the lists |
| DirEntries.ParseDirEntries | src/core/protocol/dir_entry.rs:9-18 | The cursor loop computes the parse that the round-trip lemmas are about, failing as a whole on any bad entry |
| DirEntries.SerializeDirEntries | src/core/protocol/dir_entry.rs:20-26 | The writing loop computes the payload that the round-trip lemmas are about |
| Chunks.AssembleReadResChunks | src/core/server/handlers.rs:19-48 | The splitting loop yields the chunk list that reassembly is proved against, one empty chunk for empty data |
| Chunks.ChunksFit | src/core/server/handlers.rs:19-48 | Every chunk carries the request's id and fits its frame |
| Chunks.CombineReadChunks | src/core/fs/handler.rs:85-118 | The receiving loop over the sorted map refines the wait function, stopping at the first error |
| Chunks.TableInOrder | src/core/fs/handler.rs:99-108 | The map of the chunks from any point on, read in key order, is the data from there on |
| Chunks.CombineFrom | src/core/fs/handler.rs:85-118 | From any set of chunks already absorbed, the loop returns the data at the last missing chunk and not before |
| Chunks.Reassembly | src/core/fs/handler.rs:85-118 | Chunks in any order, each at most once, among other messages: the data is returned exactly when every chunk is there, empty data included |
| Chunks.DuplicateReturnsEarly | src/core/fs/handler.rs:99-108 | With data of exactly two full chunks, the first delivered twice makes the loop return that chunk alone, before the second has come |
| ChunkDuplicates.InOrderLength | src/core/fs/handler.rs:102-108 | Any set of chunks, joined, is as long as those chunks together, so a count that includes repeats is too high |
| ChunkDuplicates.NeverTheData | src/core/fs/handler.rs:91-109 | Once bytes have been counted twice the loop may stop, but never with the data |
| ChunkDuplicates.ReassemblyExact | src/core/fs/handler.rs:85-118 | Over any chunks of the data, in any order, with any repetitions and any other messages or errors among them, the loop returns the data if and only if the messages up to some point bring each chunk exactly once, and no error |
| ChunkDuplicates.OvershotWaits | src/core/fs/handler.rs:91-109 | Once the count has passed the total, no further chunk ends the wait |
| ChunkDuplicates.DuplicateHangs | src/core/fs/handler.rs:99-108 | For all data of one full chunk and a shorter one, the shorter delivered twice and then the full one leaves the caller waiting for ever, whatever chunks follow |
| Conversions.TimeRoundTrip | src/core/fs/mod.rs:102-108 | A time comes back as its whole second, clamped at the epoch; exactly whole seconds from the epoch on are unchanged |
| Conversions.KindRoundTrip | src/core/protocol/error.rs:17-41 | Code to kind to code is the identity; kind to code to kind keeps exactly the five coded kinds and makes the rest `Other` |
| Conversions.AttrRetraction | src/core/fs/mod.rs:127-179 | Attributes come back in normal form, and sending them twice is sending them once |
| Conversions.StatsRetraction | src/core/fs/mod.rs:193-227 | Statistics come back unchanged |
| Conversions.ErrorRetraction | src/core/protocol/error.rs:42-66 | Errors come back with their kind collapsed and their text kept, and collapsing twice is collapsing once |
| Stub.RequestIsUnderstood | src/core/server/handlers.rs:73-301 | The server runs the operation the caller asked for, with only its times cut to whole seconds |
| Stub.NormalFormMeans | src/core/fs/mod.rs:102-108 | Only times and kinds without a code change on the way: times are cut to whole seconds since the epoch, such kinds become `Other`, and all else is as it was |
| WireCalls.RequestType | src/core/fs/handler.rs:226-452 | Each operation is sent under its literal message type and the id it was given |
| WireCalls.RequestInode | src/core/fs/handler.rs:226-452 | Bytes 5 to 12 of a request are the inode or directory the operation is about |
| WireCalls.NoArguments | src/core/fs/handler.rs:251-255 | GET_ATTR_REQ, READDIR_REQ and RM_REQ end with the inode |
| WireCalls.LookupArguments | src/core/fs/handler.rs:226-238 | The name a lookup sends, behind its length, at its literal position |
| WireCalls.CreateFileArguments | src/core/fs/handler.rs:309-326 | Permissions, flags and name of a new file at their literal positions, byte 19 being 0 |
| WireCalls.CreateDirArguments | src/core/fs/handler.rs:339-355 | Permissions and name of a new directory, flags 0, byte 19 being 0x80 |
| WireCalls.ReadArguments | src/core/fs/handler.rs:368-382 | Offset and length of a read |
| WireCalls.WriteArguments | src/core/fs/handler.rs:388-401 | Offset, length and data of a write |
| WireCalls.RenameArguments | src/core/fs/handler.rs:435-448 | The destination directory and name of a rename, apart from the inode moved |
| WireCalls.SetAttrArguments | src/core/fs/handler.rs:269-293 | SET_ATTR_REQ carries the fields given, times in whole seconds |
| WireCalls.SingleReply | src/core/server/handlers.rs:56-301 | An outcome other than bytes is answered by one frame, of the literal type that tells it, errors under their literal code |
| WireCalls.AttrReply | src/core/fs/mod.rs:127-152 | Attributes are answered field by field at literal positions, times divided by 1,000,000,000 nanoseconds |
| WireCalls.StatsReply | src/core/fs/mod.rs:193-206 | And so are statistics |
| WireCalls.BytesReply | src/core/server/handlers.rs:19-48 | Bytes, of a file or of a packed listing, are answered by a frame for every started 65535 of them, and at least one; the i-th carries the total, offset 65535 i and the bytes from there on |
| Stub.RepliesFit | src/core/server/handlers.rs:51-302 | Every reply the server makes carries the request's id and fits its frame |
| Stub.CallTransparency | src/core/fs/handler.rs:225-452 | A caller is answered exactly when its whole reply set has been delivered, in whatever order, and the answer is the backend's outcome in normal form |
| Callers.AwaitInode | src/core/fs/handler.rs:240-248 | A lookup or creation skips whatever is neither an inode nor an error, and returns the first that is |
| Callers.AwaitSuccess | src/core/fs/handler.rs:49-65 | The same for the requests answered by success |
| Callers.AwaitAttributes | src/core/fs/handler.rs:251-267 | The same for attributes, seconds becoming times |
| Callers.AwaitStatistics | src/core/fs/handler.rs:295-307 | The same for statistics |
| Callers.AwaitHandshake | src/core/fs/handler.rs:184-222 | The handshake goes by the first message: connected, refused, or invalid data when it is neither an answer nor an error |
| Callers.AwaitRefused | src/core/fs/handler.rs:85-118 | An error that comes while bytes are still missing is what a read or a listing returns |
| Callers.AwaitBytes | src/core/fs/handler.rs:406-422 | With other messages among the chunks a read returns the bytes, and a listing what they parse to or an error if they do not, as soon as every chunk has come and not before |
| Stub.NormalForms | src/core/fs/mod.rs:102-232 | Normalising an operation or an outcome twice is normalising it once, and keeps what the operation promises |
| Stub.RemoteOfRemote | src/core/fs/mod.rs:236-320 | Seen through a stub a backend is a backend again, and a second stub in front of the first changes nothing more |
| RpcSteps.FrontOfStream | src/core/protocol/codec.rs:14-31 | What a reader sees at the front of a partly arrived stream is the first message sent, or too little, and never a malformed frame |
| RpcSteps.DispatchedToNewest | src/core/fs/handler.rs:34-44 | However many messages have been sent and whatever listeners are stale, a reply is handed to the newest call with its id if that call waits, and to none otherwise |
| RpcSteps.DispatchedToOwner | src/core/fs/handler.rs:34-44 | A waiting call is handed the reply to it if and only if fewer than 2^32 messages have been sent since |
| RpcSteps.ReturnMeans | src/core/fs/handler.rs:49-118 | A call can return only after its request was handled and with its whole reply set delivered, and returns what the backend's answer deserves |
| RpcSteps.ExecutedOk | src/core/server/handlers.rs:51-302 | Executing a request under the lock keeps the invariant of its connection, with the log one entry longer |
| RpcSafety.StepKeeps | src/core/server/mod.rs:24-54 | Every step of every party, ids reused or not, keeps numbering, streams, listeners, reply accounting, lock and history right |
| RpcSafety.StepFaithful | src/core/fs/handler.rs:22-118 | Every step from a state in which no outstanding id is reused keeps every waiting call's inbox to its own replies and every returned result to what its execution deserves |
| RpcSafety.RunKeeps | src/core/server/mod.rs:24-54 | Every run keeps the invariant, with no bound on messages sent |
| RpcSafety.RunFaithful | src/core/fs/handler.rs:22-118 | Every run that reuses no outstanding id keeps inboxes and results faithful |
| RpcSafety.Conservation | src/core/server/handlers.rs:56-301 | In every reachable state, ids reused or not, the replies to a call that are unsent, queued, on the wire or off it are exactly its one reply set: none before it is handled, each once afterwards, all with its id; a message that asks for nothing has none |
| RpcSafety.DeliveredToCaller | src/core/fs/handler.rs:22-46 | As long as no outstanding id is reused, a listening call has been handed exactly the replies to itself that have left the wire |
| RpcSafety.OutstandingIdsDiffer | src/core/fs/handler.rs:131-162 | In every reachable state, an outstanding call with fewer than 2^32 messages sent since shares its id with no later call of its connection |
| RpcSafety.RoutedToCaller | src/core/fs/handler.rs:22-46 | In every reachable state, routing the next reply hands it to the call it answers, if that waits, exactly when fewer than 2^32 messages were sent since |
| RpcSafety.NeverMalformed | src/core/protocol/codec.rs:14-31 | In every reachable state, ids reused or not, neither direction of any connection shows its reader a malformed frame |
| RpcSafety.Serial | src/core/server/handlers.rs:51-302 | In every reachable state, ids reused or not, the backend went from its initial state to its present one by the handled requests in lock order, each running its operation on the state the one before it left, and none executed twice |
| RpcSafety.Linearizable | src/core/server/handlers.rs:51-302 | As long as no outstanding id is reused, moreover, every returned call took effect in that one history, step by step the backend's own, between its send and its return, with the backend's own answer |
| RpcSafety.RealTimeOrder | src/core/server/handlers.rs:169-200 | If a call has returned in some state of a run and another, on whichever connection, is sent only later in that run, the first took effect before the second |
| RpcSafety.Transparency | src/core/fs/handler.rs:225-452 | As long as no outstanding id is reused, a stub operation that has returned gave the result, in normal form, of running that operation atomically at its point in the history, and the next in line met the state that leaves |
| RpcSafety.HandshakeTransparency | src/core/server/handlers.rs:57-71 | A handshake that has returned was accepted if it proposed version 0, and refused if not |
| RpcSafety.OneAtWork | src/core/server/handlers.rs:169-200 | In every reachable state at most one task, over all connections, has run an operation and still owes replies or is about to finish |
| RpcSafety.WaitsForTheOther | src/core/server/handlers.rs:79-287 | A queued request for an operation can run exactly when no task is at work, and one that asks for none at any time |
| RpcSafety.KthMessage | src/core/fs/handler.rs:148-156 | In every reachable state the k-th message of a connection carries the id k modulo 2^32 |
| RpcProgress.StepLowers | src/core/server/mod.rs:24-54 | Every step but sending lowers a lexicographic measure over waiting requests, unsent replies, the queues, the wire and the waiting callers |
| RpcProgress.StaysUnwrapped | src/core/fs/handler.rs:148-162 | Only sending can bring an outstanding id closer to reuse |
| RpcProgress.NoInfiniteRun | src/core/server/mod.rs:24-54 | Infinitely many steps without sending are impossible |
| RpcProgress.UnsettledMoves | src/core/server/handlers.rs:169-200 | Until everything in flight has arrived and every task has finished, some step of the system's own can be taken, despite the single lock and the 32-slot queue, ids reused or not |
| RpcProgress.NoDeadlock | src/core/server/handlers.rs:169-200 | As long as no outstanding id is reused, some step of the system's own can be taken while any request is unanswered and its caller waiting |
| RpcProgress.StuckMeansSettled | src/core/server/mod.rs:24-54 | A reachable state with no step of its own left has handled every message and delivered every reply, ids reused or not |
| RpcProgress.StuckMeansAnswered | src/core/fs/handler.rs:49-118 | And, as long as no outstanding id was reused, has answered every request whose caller waits |
| RpcProgress.RunsOut | src/core/server/mod.rs:24-54 | From every state of a run, the system's own steps lead to a state where none is left |
| RpcCompletion.RunLasting | src/core/fs/handler.rs:49-118 | The system's own steps never make a caller give up or change what it sent, over any run |
| RpcCompletion.Completes | src/core/fs/handler.rs:225-452 | From every state reached without reusing an outstanding id, a request sent under a free id can be carried by the system's own steps to its return, having taken effect in the history with the backend's own answer |
| RpcQueue.QueueBound | src/core/server/mod.rs:22-36 | In every reachable state at most 32 replies of a connection wait to be written |
| RpcQueue.AnyOrder | src/core/server/handlers.rs:188-200 | Whatever replies a task owes can enter the queue in any order, as far as there is room, so no order of chunks is assumed away |
| RpcWrap.Misdelivers | src/core/fs/handler.rs:148-162 | From every reachable state with a reply about to be routed, sending until the counter comes round and then routing hands that reply to the newest call and not to its own |
| RpcWrap.ReturnsUnhandled | src/core/fs/handler.rs:148-162 | Over every backend a state is reachable in which a call has returned although its request was never handled, so linearizability does need the bound |
| EndToEnd.ReceivedAllInbox | src/core/fs/handler.rs:22-46 | Running the receive loop over the listener map hands a waiting caller exactly the messages with its id, in order, whatever else is registered |
| EndToEnd.ArriveAllInbox | src/core/fs/handler.rs:22-46 | The same over any number of segments, the loop running after each |
| EndToEnd.Read | src/core/server/handlers.rs:188-200 | For any data, any order of its chunks, any traffic for other ids among them, any other listeners and any cut of the stream, chunk-encode-decode-dispatch-combine returns exactly the data |
| EndToEnd.ReadInProgress | src/core/fs/handler.rs:85-118 | As long as a chunk is missing the caller is still waiting |
| EndToEnd.Listed | src/core/server/handlers.rs:220-263 | The same for a listing, wherever chunk boundaries fall inside its packed entries |
| Client.ClientHandler.constructor | src/core/fs/handler.rs:164-181 | A new handler is the client's side of a connection on which nothing has happened |
| Client.ClientHandler.SendMsg | src/core/fs/handler.rs:148-162 | Stamping, registering, counting and writing refine the protocol's send step |
| Client.ClientHandler.Deliver | src/core/fs/handler.rs:34-44 | Pushing to the registered channel, or dropping a stale listener, refines the protocol's dispatch |
| Client.ClientHandler.ReceiveLoop | src/core/fs/handler.rs:22-46 | The receive loop refines routing every complete message in the buffer |
| Client.AwaitResponse | src/core/fs/handler.rs:225-365 | The loop that skips other messages and stops at an error or the awaited response returns what transparency is proved of |
| Client.AwaitEntries | src/core/fs/handler.rs:406-422 | Combining and then parsing returns what transparency of listings is proved of |
| Client.AwaitAnswer | src/core/fs/handler.rs:184-452 | Each stub method's wait, by request type, returns what transparency is proved of |
| Server.HandleRead | src/core/server/handlers.rs:169-200 | A read answers with its chunks or with an error, after exactly one backend operation |
| Server.HandleReadDir | src/core/server/handlers.rs:220-263 | A listing answers with the chunks of its packed entries or with an error, after exactly one backend operation |
| Server.HandleSimple | src/core/server/handlers.rs:73-158 | Every other operation answers with one reply of its type or an error, after exactly one backend operation |
| Server.HandleMsg | src/core/server/handlers.rs:51-302 | Handling a message runs the one operation it asks for on the backend, leaving the state that gives, and answers with its reply set; an INIT_REQ is answered and any other message ignored with the backend as it was |
| Server.ClientSession.ReadLoop | src/core/server/mod.rs:38-54 | One task per complete message, in arrival order, refining the protocol's spawn step |
| Server.ClientSession.WriteLoop | src/core/server/mod.rs:24-36 | The writer drains the reply queue in order, refining the protocol's write step |
| InodeTree.ChildByPath | src/core/fs/disk.rs:46-56 | The entry a name leads to in an inode's directory is what stands at that directory's path followed by the name |
| InodeTree.BelowByPath | src/core/fs/disk.rs:248-259 | One inode lies at or below another, following parents, if and only if the other's path is a prefix of its own |
| InodeTree.TreeDeterminesPaths | src/core/fs/disk.rs:22-43 | Two disks with the same tree of inodes are the same set of paths, so an operation that leaves the tree alone leaves every path alone |
| InodeTree.OtherKindsGiveWay | src/core/fs/mod.rs:312-314 | When source and destination differ in type, rename fails if and only if the destination is a directory or a regular file or lies below the source; otherwise the destination is gone |
| InodeTree.DirectoryOntoPipe | src/core/fs/disk.rs:270-286 | A concrete disk on which a directory is renamed onto a pipe, which is then gone |
| DiskRefinement.OpenByInode | src/core/fs/disk.rs:139-153 | Opening with the creation flags and then setting permissions is the inode-level creation, error by error |
| DiskRefinement.MakeDirByInode | src/core/fs/disk.rs:166-174 | Making a directory and then setting permissions is the inode-level creation, error by error |
| DiskRefinement.RemoveTreeByInode | src/core/fs/disk.rs:251-252 | Removing all paths below a directory removes exactly the inodes at or below it and keeps the disk a tree |
| DiskRefinement.RemoveFileByInode | src/core/fs/disk.rs:253-255 | Unlinking what is not a directory removes that inode and no other |
| DiskRefinement.MoveTreeByInode | src/core/fs/disk.rs:289-292 | Renaming every path below a directory changes the place of one inode, keeps the disk a tree, and leaves every other inode where it was |
| DiskRefinement.RenameToFree | src/core/fs/disk.rs:289-292 | Renaming onto a free name is the inode-level rename, or fails for the same reason |
| DiskRefinement.RenameOverFile | src/core/fs/disk.rs:267-292 | Removing the file at the destination and then renaming is the inode-level overwriting rename, unless the destination lies below the source |
| DiskFs.AgreesWhenRemoved | src/core/fs/disk.rs:248-259 | After a recursive removal, every registered inode still on the disk has its own path; the others name inodes that are gone |
| DiskFs.TargetIsSelf | src/core/fs/disk.rs:36-42 | A request acts on the inode it names if and only if that is still on the disk; otherwise on nothing, or on another inode that is |
| DiskFs.GoneInodeExample | src/core/fs/disk.rs:248-259 | A concrete disk and index on which a request for a removed inode acts on a newer file, which removing it would delete |
| DiskFs.AgreesWhenMoved | src/core/fs/disk.rs:289-294 | Re-keying one inode, the moved one or one that is gone, keeps the index right if and only if no other registered inode moves along |
| DiskFs.MovedDirectoryExample | src/core/fs/disk.rs:289-294 | A concrete disk and index, a registered file below a renamed directory, on which the index is wrong afterwards |
| DiskFs.StaleForGood | src/core/fs/disk.rs:46-56 | After a rename that took a registered inode along, looking that inode up at its new path finds it but leaves its stale entry, so it still has no target |
| DiskFs.DestructiveDiffers | src/core/fs/disk.rs:267-287 | In the destructive case the inode-level rename would have left the tree alone, so losing the destination is a real difference |
| DiskFs.OntoItself | src/core/fs/disk.rs:286-292 | Renaming any file to the name it has is a destructive case, where the inode-level rename succeeds and changes nothing |
| DiskFs.OntoItselfExample | src/core/fs/disk.rs:286-292 | A concrete disk with one file on which this happens |
| DiskFs.FreeOutcome | src/core/fs/disk.rs:289-296 | The rename outcome when nothing stands at the destination |
| DiskFs.RefusedOutcome | src/core/fs/disk.rs:270-284 | A directory at the destination is refused as existing and a type mismatch as invalid, with the tree unchanged |
| DiskFs.ClearedOutcome | src/core/fs/disk.rs:286-296 | The rename outcome once the destination has been removed, whether or not the source outlived it |
| DiskFs.DiskFs.constructor | src/core/fs/disk.rs:30-35 | The index starts with the root alone, and agrees with any disk |
| DiskFs.DiskFs.GetAttr | src/core/fs/disk.rs:58-78 | The kind, permissions and contents found by path are those of the target inode in the tree, and an inode without target is an error |
| DiskFs.DiskFs.Lookup | src/core/fs/disk.rs:45-56 | Refines the lookup of an entry by inode, with its errors, for live, gone and unknown directories; the disk does not change, and the index gains at most the inode found, never losing an older path |
| DiskFs.DiskFs.CreateFile | src/core/fs/disk.rs:129-158 | Refines the inode-level creation under O_EXCL and O_TRUNC: the same result and the same whole tree, no change on a rejection, agreement kept, no inode revived |
| DiskFs.DiskFs.CreateDir | src/core/fs/disk.rs:160-179 | Refines the inode-level directory creation: the same result and the same whole tree, agreement kept, no inode revived |
| DiskFs.DiskFs.Remove | src/core/fs/disk.rs:248-259 | Refines removing the inode and everything below it; agreement kept, no inode revived, so orphaned entries name only inodes that are gone for good |
| DiskFs.DiskFs.Rename | src/core/fs/disk.rs:261-297 | For live, gone and unknown inodes alike, refines the inode-level rename exactly outside the destructive case, says what is lost inside it, states the new index, and keeps agreement if and only if it did not go through with another registered inode moving along |
| DiskPaths.UnresolvedIs | src/core/fs/disk.rs:46-78 | A path that does not resolve is refused as missing if its longest prefix that does is a directory, and as below a non-directory if not |
| DiskPaths.FoundPath | src/core/fs/disk.rs:45-56 | A lookup in any registered directory, gone or not, returns the inode at the path, registered there if it was not registered before, or why there is none |
| DiskPaths.CreatedFile | src/core/fs/disk.rs:139-157 | In a directory that is there: a free name gets an empty regular file with the permissions; of what is there already, bit 7 of the flags makes it an error, bit 9 empties a regular file, with neither its contents stay, and its permissions are set; all other paths are as before, and the index gains the inode if it lacked it |
| DiskPaths.MadeDirectory | src/core/fs/disk.rs:166-178 | Likewise for directories: an existing name is an error, a free one gets an empty directory |
| DiskPaths.NotCreated | src/core/fs/disk.rs:136-178 | In what is not a directory or not there nothing is created, with the error of the path |
| DiskPaths.RemovedPaths | src/core/fs/disk.rs:248-259 | Exactly the paths at and below that of the inode are gone, or the path did not resolve and nothing is |
| DiskPaths.RenamedPaths | src/core/fs/disk.rs:261-297 | Every case of rename by its paths: which error, whether the destination is lost, where the tree stands afterwards, and which entries of the index are replaced |
| DiskService.Perform | src/core/fs/disk.rs:45-297 | Whatever operation on names it is asked for, DiskFs does what the backend of the composed theorem may do |
| DiskService.DoesKeeps | src/core/fs/disk.rs:45-297 | Every operation keeps index and disk consistent, a rename if it takes no other registered inode along |
| DiskService.HistoryConsistent | src/core/server/handlers.rs:51-302 | Along any legal history of such operations every state the backend passes through is consistent |
| DiskService.DiskThroughStub | src/core/fs/handler.rs:225-452 | Any number of clients over one DiskFs-like backend: every returned call did, atomically and at its point in the history, what the operation does to the tree of inodes there, with that result in normal form, and the next request in line met the disk it left |
| DiskService.LookupThroughStub | src/core/fs/handler.rs:226-249 | A lookup through a stub in a live directory finds what the disk's tree holds under the name at that moment, or its error in normal form |
| RemoteDisk.LookupPathThroughStub | src/core/fs/handler.rs:226-249 | A LOOKUP_REQ that has returned gave what stood at the path at its point in the history and changed no path, and a request for the inode it gave acts on that inode |
| RemoteDisk.CreateThroughStub | src/core/fs/handler.rs:309-337 | A CREATE_REQ for a file, by the bits of its flags: the result its caller was given, the paths that the next request in line met, and that a request for the inode given acts on it |
| RemoteDisk.MakeDirThroughStub | src/core/fs/handler.rs:339-366 | A CREATE_REQ for a directory, likewise |
| RemoteDisk.RemoveThroughStub | src/core/fs/handler.rs:424-433 | An RM_REQ that succeeded took away the paths at and below that of its inode from all later requests, and no others |
| RemoteDisk.RenameThroughStub | src/core/fs/handler.rs:435-451 | A MOVE_REQ, by its paths: which error its caller was given, or where the next request in line found the tree |
| Dissector.LengthsAgree | wireshark/azpfs.lua:194-257 | The dissector's length of a well-sized message is the decoder's if and only if it is not a SET_ATTR_REQ that leaves a field out |
| Dissector.RunDissector | wireshark/azpfs.lua:622-663 | The dissector's loop cuts the frames that agreement is proved of, and gives up on the buffer at an unknown type |
| Dissector.DissectAfter | wireshark/azpfs.lua:622-663 | In front of any bytes, well-sized messages that carry all their fields are cut off frame by frame, and those bytes treated as if they stood alone |
| Dissector.DissectEncoded | wireshark/azpfs.lua:622-663 | On a buffer that ends anywhere inside a frame it cuts one frame per complete message, to its last byte, and leaves the rest, if and only if every complete SET_ATTR_REQ is full |
| Dissector.UnknownGivesUp | wireshark/azpfs.lua:622-663 | At a first byte above 0x11 the whole buffer is given up, complete frames before it included |
| Dissector.SplittersAgree | wireshark/azpfs.lua:622-663 | On a buffer that ends anywhere inside a frame the dissector cuts exactly the frames the decoder decodes, both waiting on the same bytes, if and only if every complete SET_ATTR_REQ is full |
| Dissector.ChunkState.HandleChunk | wireshark/azpfs.lua:305-371 | One chunk's update of the tables refines the observation that reassembly is proved of |
| Dissector.FirstSeenReassembly | wireshark/azpfs.lua:305-371 | Over any order and any repetition of a read's chunks it is complete exactly when each has been seen, the completing frame is never revised, and the bytes are the client's |
| Dissector.CompletedInFirst | wireshark/azpfs.lua:305-371 | The completing frame is the first with which every chunk has been seen |

## Left out

- The inside of binrw and of tokio: layouts are written out as binrw's derive fixes them, a spawned task is a step, the mutex a holder, a channel a queue, and the framed reader appends bytes and decodes until it needs more or fails.
- Connection loss: listeners keep their sender in the shared map, so no ConnectionReset or UnexpectedEof result is claimed, and progress is for live connections.
- Session enforcement: the server does not check for duplicate INITs or for requests before INIT (`src/core/server/handlers.rs:61`), so the rules of Protocol.md on sessions are not claimed; the model follows the code.
- Messages that do not fit their frame: the step system sends well-sized messages only; `Oversized.OversizedDecodes` says what a reader makes of the others.
- The backend of the step system is a function of its state and the operation. `DiskService` takes any function that does what `DiskFs` may do; how a disk picks numbers for new inodes is part of that function, and reads, writes and attribute changes are only known to keep paths, inodes and types.
- The texts of errors the client makes up itself (a refused handshake, a bad payload) are modelled as empty, and the kinds an operating system may report beyond those named are numbered.
- The error branch when serialising a listing (`src/core/server/handlers.rs:220-263`): writing to memory cannot fail, so it is never taken.
- What `framed` readers do with bytes behind a malformed frame: the stream ends and the rest is dropped.
- Times beyond the range of `SystemTime`: seconds at or above 2^63 panic in the original and do not here.
- FUSE glue, both `main.rs` files, argument parsing, TCP setup and tracing: plumbing over libraries.
- `DiskFs` bodies of read, write, set_attr, read_dir and stats: they pass one path to one system call each and do not touch the index.
- Kernel details under `DiskFs`: symbolic and hard links, permission checks, opening special files, external changes, short reads and writes, partial failure of a recursive removal. Path names are single components, as a filesystem client sends them.
- The exported root's own inode number on disk: `ROOT_INODE` stands for it; no operation modelled here returns it.
- DiskFs.DiskFs.Rename: its outcome is stated while the index agrees with the disk; once it does not, only that the disk stays a tree and that no inode is revived. The outcomes of the other methods are stated in either case.
- DiskFs.DiskFs.GetAttr: sizes follow from contents; times, owners, link and block counts of a file are not part of the disk modelled.
- DiskFs.DiskFs.CreateFile: the number the disk gives a new inode is a parameter, required never to have been used before; the disk's choice is not modelled.
- DiskFs.DiskFs.CreateDir: the same holds of its new inode number.
- The dissector's display trees, request and response links, preferences, desegmentation lengths, and the reuse of its stream keys.
