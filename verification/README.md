# Verified model of the RK3568 vehicle middleware

This project models, in Dafny, the protocol and state-machine cores of the repository and proves what they
keep in every run:

- **DoIP TCP server** (ISO 13400-2:2012): reassembly of frames from a TCP stream, dispatch, routing
  activation over a two-way routing table, alive checks and inactivity timers.
- **OTA transfer chain**: the update agent's block loop, the UCM transfer sessions with their persisted state,
  the software package format, the OTA manager with its worker thread, the A/B slots, the version history and
  the partition writer of the board.
- **CRC-32** (section 8 of RFC 1952): the table-driven, buffered digest against the bit-by-bit division.
- **Two RPC layers**: the little-endian UCM wire format and the big-endian vehicle-status wire format.
- **EpollLoop**: posting tasks to the event loop from other threads.

Each component comes in two layers. The code's own form, a class with fields or a method with loops, is proved
to do exactly what a specification on values says (`doip_server` against `doip_model`, `ucm_service` against
`ucm_model`, `ota_manager` against `ota_model`, the codec methods against their `Put`/`Take` functions). What the
component promises is then proved about that specification, over all inputs and all runs, in terms of what was received,
sent, announced or recorded, and down to bytes and codes.

| files | component |
|---|---|
| `bytes` | bytes, fixed-width integers |
| `doip_frame`, `doip_stream` | frame encoding and the one-pass reference parser |
| `doip_routing_table`, `doip_connection`, `doip_server` | the server's classes |
| `doip_model` | the server as a value |
| `doip_delivery`, `doip_routing`, `doip_safety`, `doip_timers`, `doip_alive`, `doip_authorization` | what every run of the server keeps |
| `doip_answers` | what is sent for each request, byte by byte |
| `le_codec`, `package_manifest` | little-endian codec and package format |
| `file_paths` | which file a path string opens |
| `ucm_model`, `ucm_service`, `ucm_sessions`, `ucm_ids`, `ucm_answers` | transfer sessions: value, class, invariants, error codes |
| `update_agent`, `ota_pipeline` | the client sequence and the chain end to end |
| `ota_joint` | service and manager together, in every interleaving |
| `crc32`, `crc32_laws` | the digest, its error detection, its agreement with CRC-32 elsewhere |
| `slot_manager`, `version_manager`, `linuxab_slot_manager` | slots, version files, partition copy |
| `ota_model`, `ota_manager`, `ota_safety`, `ota_outcomes` | the manager: state machine, class, invariants, how an update ends |
| `ucm_rpc`, `vehicle_status_rpc` | the RPC layers |
| `wire_layout`, `wire_decoding` | the bytes on the wire and in files, and what the decoders accept |
| `epoll_loop` | cross-thread posting |

`dafny verify dfyconfig.toml` checks the whole project.

## Conventions

Times are milliseconds of one monotone clock, passed in with each event. Everything the DoIP server hands to a
socket or to the UDS server is appended to a log, so that "is asked to shut down" and "was dispatched" are
statements about that log. Whether a file, boot or device operation succeeds is an input of the step that makes
it, but for the writes named under "Left out". HMAC and the handed-in digest and verification functions are
arbitrary functions, and CRC-32 where a statement is about CRC-32.

## Results that are not what one might expect

- Behind a rejected DoIP header nothing is dispatched any more, but every later chunk repeats the negative
  acknowledgement and the shutdown. Splitting a chunk is therefore invisible exactly when its first part does
  not end at a rejected header (`DoipDelivery.OnDataSplit`).
- A pending alive check is cleared only by a received alive check request (0x0007). The alive check response
  (0x0008) has no case in `dispatch` and is answered as an unsupported type (src/doip/doip_server.cpp:137-162);
  it clears nothing (`DoipTimers.HandlePending`). The timer results are stated for the code.
- `last_good_` is set on activation and never advanced on success. A manual rollback before the switch keeps
  the running slot exactly when the last good slot was the running one as the update began
  (`OtaSafety.RollbackFromReady`); after one successful update it is not, and the rollback makes the slot just
  written current (`OtaSafety.RollbackFromReadyGoesWrong`). Rollback from the rebooting state is always right.
- An empty payload passes the agent, the UCM service and verification and then fails in the slot manager
  (`OtaPipeline.EmptyImageFails`), because inserting an empty stream buffer sets the output's fail bit.
- History fields that hold the separator or a newline do not survive a save and a load
  (`VersionManager.LoadPrintExact` gives the exact condition); what was read from any file does.
- CRC-32 catches every burst of up to four bytes. A burst of five goes unseen exactly when the change of its last four
  bytes is what eight division steps make of the change of the first (`Crc32.FiveByteBursts`); in general a change goes
  unseen exactly when, fed alone from an empty register, it leaves the register empty (`Crc32.CollisionExact`).
- The UCM service builds file names from whatever id a client sends (src/ota/ucm_service.cpp:33-39) and resumes any id
  whose session file opens. Another id can therefore reach the files of a transfer it is not the id of: `./1` always
  does for `1` (`UcmSessions.DotAlias`), `../t/1` does where the directory is called t (`UcmSessions.ParentAlias`). A
  block sent under such an alias grows the package of the transfer behind its session's back
  (`UcmSessions.OtherSpelling`). Calls on one id leave another alone, and keep its session sound, exactly when the two
  share no file, for all ids and wherever the file system leads them (`UcmSessions.IsolationExact`,
  `UcmSessions.SoundExact`). Ids without slash and NUL share none, and every id the service issues is one
  (`UcmModel.SafeIdsApart`, `UcmModel.IssuedIdSafe`). The results on transfers are stated for such ids.
- `next_id_` starts at 1 again after a restart (src/ota/ucm_service.h:73). Until then no id is issued twice
  (`UcmIds.NewIdEachTime`); the first transfer started afterwards is transfer 1 again, and if one is still kept under
  that id its package is cut to nothing (`UcmIds.RestartReissues`, `UcmIds.StartEmpties`).
- `start_update` holds the lock while it joins the worker. In every state that a run with one start at a time reaches,
  it blocks exactly when the worker has not yet made its first progress report, or still has its automatic switch ahead
  after a manual rollback, failure or success; in both cases the worker is waiting for that lock
  (`OtaSafety.BlockedExactly`).

## Model

| member | source | states |
|---|---|---|
| `DoipFrame.BuildFrame` | src/doip/doip_frame.cpp:21-39 | a buffer too small is left untouched and 0 returned; otherwise the front of the buffer is the header with the payload behind it and the rest is as it was |
| `DoipFrame.HeaderRoundTrip` | src/doip/doip_frame.cpp:7-39 | the header that is written is the header that is read, for every 16-bit type and 32-bit length |
| `DoipStream.ParseExact` | src/doip/doip_server.cpp:101-130 | frames and leftover are the reference parser's result exactly when the stream is the frames' encoding followed by a leftover at whose front no complete frame stands |
| `DoipStream.ParseSplit` | src/doip/doip_connection.cpp:11-52 | cutting a stream anywhere and carrying the leftover over gives the frames and leftover of the whole stream |
| `DoipStream.ParseComplete` | src/doip/doip_frame.cpp:21-39 | a concatenation of built frames is cut into exactly those frames in order, whatever follows |
| `DoipStream.ParseRest` | src/doip/doip_connection.cpp:15-29 | the leftover holds no complete frame, and parsing it again does nothing |
| `DoipStream.BadStays` | src/doip/doip_server.cpp:106-118 | once the leftover starts with a rejected header no later byte ever yields a frame |
| `DoipRoutingTable.ActivatePairs` | src/doip/doip_routing_table.cpp:14-19 | activation makes socket and address partners, drops the partners they had, leaves every other pair alone, and keeps the two maps inverse |
| `DoipRoutingTable.InverseSize` | src/doip/doip_routing_table.cpp:14-39 | in inverse maps the number of addresses is the number of sockets |
| `DoipRoutingTable.DoipRoutingTable.FdFor` | src/doip/doip_routing_table.cpp:9-12 | the socket returned is the one routed to the address, and -1 exactly when there is none |
| `DoipRoutingTable.DoipRoutingTable.ActivateRoute` | src/doip/doip_routing_table.cpp:14-19 | the two maps become those of the specification, inverse if they were |
| `DoipRoutingTable.DoipRoutingTable.Deactivate` | src/doip/doip_routing_table.cpp:21-27 | the socket and its address leave both maps, nothing else does |
| `DoipRoutingTable.DoipRoutingTable.DeactivateAddressOf` | src/doip/doip_routing_table.cpp:29-35 | the address and its socket leave both maps, nothing else does |
| `DoipConnection.DoipConnection.NextFrame` | src/doip/doip_connection.cpp:15-29 | the complete frame at the front of the buffer, none while more bytes are needed or the length is refused |
| `DoipConnection.DoipConnection.NextFrameTotal` | src/doip/doip_connection.cpp:38-44 | the number of bytes the frame at the front occupies |
| `DoipConnection.DoipConnection.Consume` | src/doip/doip_connection.cpp:46-52 | drops that many bytes from the front, all of them if there are fewer |
| `DoipConnection.DoipConnection.Touch` | src/doip/doip_connection.cpp:65-69 | restarts the general inactivity timer only of an active connection |
| `DoipConnection.DoipConnection.ArmAliveCheck` | src/doip/doip_connection.cpp:79-83 | records the check and moves the inactivity deadline behind its timeout |
| `DoipRouting.ActivationCode` | src/doip/doip_server.cpp:209-240 | the answer is success exactly when the type is the default one, no other socket owns the tester, an active socket keeps its tester and an inactive one finds a free place |
| `DoipRouting.ActivationOutcome` | src/doip/doip_server.cpp:193-250 | a granted request adds exactly its route, channel and active connection; a refused one changes no container, and is shut down exactly when it was well formed |
| `DoipRouting.ActiveCount` | src/doip/doip_server.cpp:354-362 | the active sockets are the routed sockets are the sockets with a channel, and the reported count counts them |
| `DoipRouting.EraseKeepsConsistent` | src/doip/doip_server.cpp:520-524 | disconnecting removes the socket from all four containers, leaves the others' entries and keeps the joint invariant |
| `DoipSafety.RoutingInvariant` | src/doip/doip_server.cpp:92-250 | over every run of chunks, maintenance and disconnections: the routing maps are inverse, a socket is routed to a tester exactly when its connection is active for it, exactly those sockets have a channel, and no more than the advertised number are routed |
| `DoipDelivery.DispatchAllSetRx` | src/doip/doip_server.cpp:120-129 | dispatching never looks at the receive buffer |
| `DoipDelivery.OnDataEffect` | src/doip/doip_server.cpp:92-131 | one chunk dispatches exactly the frames the reference parser finds in buffer and chunk, keeps its leftover, and touches no other connection |
| `DoipDelivery.DeliveryInvariant` | src/doip/doip_server.cpp:92-131 | over every run, whatever the chunking and interleaving, the frames dispatched for a socket since it was opened are those of the bytes it has received, and its buffer is the leftover |
| `DoipDelivery.OnDataSplit` | src/doip/doip_server.cpp:92-131 | splitting a chunk leaves the whole server state and log the same exactly when the first part does not end at a rejected header |
| `DoipDelivery.AfterBadHeader` | src/doip/doip_server.cpp:106-118 | behind a rejected header a chunk only repeats the refusal: nothing is dispatched and the header stays |
| `DoipTimers.TickShuts` | src/doip/doip_server.cpp:492-513 | one tick asks a socket to shut down exactly when its connection's timers say so |
| `DoipTimers.SilentConnectionIsShut` | src/doip/doip_server.cpp:485-514 | with a tick at least every P, an active connection that falls silent is asked to shut down within the general inactivity time, the alive-check time and 2P |
| `DoipTimers.IdleConnectionIsShut` | src/doip/doip_server.cpp:485-498 | a connection that never activates is asked to shut down within the initial inactivity time and P of its first chunk, however much it sends |
| `DoipTimers.HandlePending` | src/doip/doip_server.cpp:133-163 | a frame clears a pending alive check exactly when its type is 0x0007, so that an alive check response (0x0008) does not; no frame starts one |
| `DoipTimers.PendingInvariant` | src/doip/doip_connection.cpp:79-88 | over every run whose ticks visit every connection, as the maintenance loop does, the pending flag and its time are exactly the last alive check sent with no request of type 0x0007 received and no disconnection since |
| `DoipTimers.ShutOnlyUnanswered` | src/doip/doip_server.cpp:492-513 | maintenance shuts an active connection exactly when an alive check was sent at least the alive-check time ago and is unanswered, and an inactive one exactly when its initial time is over |
| `DoipAlive.TimedInvariant` | src/doip/doip_connection.cpp:54-88 | over every run the deadlines of a connection are the initial inactivity time after its first chunk and, while it is active and no check is pending, the general one after its last |
| `DoipAlive.TickChecks` | src/doip/doip_server.cpp:492-510 | a tick sends a socket an alive check exactly when its connection is due for one |
| `DoipAlive.AliveCheckExact` | src/doip/doip_server.cpp:485-514 | over every run whose ticks visit every connection, a tick sends an alive check exactly when the connection is active, no check is open in the log, and the last chunk came in at least the general inactivity time ago |
| `DoipAlive.BusyNotChecked` | src/doip/doip_server.cpp:503-510 | a socket heard from within the general inactivity time gets no alive check |
| `DoipAlive.ShutdownExact` | src/doip/doip_server.cpp:485-514 | a tick shuts an active connection exactly when its open check is at least the alive-check time old, and another exactly when its first chunk came in at least the initial inactivity time ago |
| `DoipAuthorization.RouteAsTold` | src/doip/doip_server.cpp:193-260 | over every run a socket is active for a tester exactly when the last positive activation response sent to it since it was opened names that tester |
| `DoipAuthorization.OnlyRoutedIndicated` | src/doip/doip_server.cpp:274-326 | over every run, what reaches the UDS server is the body of the diagnostic message just received, sent under the address its socket had been told it is active for, to an address of this entity, within the size limit |
| `DoipAuthorization.IndicatedExactly` | src/doip/doip_server.cpp:274-326 | a diagnostic message is indicated exactly when it is admissible, and is then answered by nothing else; a missing channel never stands in its way |
| `DoipServer.DoipServer.SendFrame` | src/doip/doip_server.cpp:375-392 | the whole frame goes out, or nothing when its payload exceeds the buffer |
| `DoipServer.DoipServer.HandleVehicleIdentification` | src/doip/doip_server.cpp:165-191 | answered unless an EID or VIN is asked for that is not this entity's |
| `DoipServer.DoipServer.JudgeActivation` | src/doip/doip_server.cpp:209-240 | the response code, by the tests in the server's order |
| `DoipServer.DoipServer.HandleRoutingActivation` | src/doip/doip_server.cpp:193-250 | the handler turns all four containers and the log into those of the specification |
| `DoipServer.DoipServer.HandleAliveCheck` | src/doip/doip_server.cpp:262-272 | clears the pending check, restarts the timer, answers |
| `DoipServer.DoipServer.HandleDiagMessage` | src/doip/doip_server.cpp:274-326 | every refusal with its code, and the indication with its addresses and body |
| `DoipServer.DoipServer.Dispatch` | src/doip/doip_server.cpp:133-163 | each payload type reaches its handler, all others the unsupported-type answer |
| `DoipServer.DoipServer.DrainBuffer` | src/doip/doip_server.cpp:101-130 | the reassembly loop ends and equals one pass of the reference parser followed by dispatching |
| `DoipServer.DoipServer.OnData` | src/doip/doip_server.cpp:92-131 | opens the connection if it is new, then receives and drains as specified; every other connection object stays |
| `DoipServer.DoipServer.InspectAll` | src/doip/doip_server.cpp:492-510 | the visiting loop looks at every connection once and closes, checks or leaves each as the specification does, whose choices `DoipAlive` states exactly |
| `DoipServer.DoipServer.MaintainConnections` | src/doip/doip_server.cpp:485-514 | one tick as specified, in whatever order the table is visited |
| `DoipServer.DoipServer.EraseClient` | src/doip/doip_server.cpp:520-524 | disconnecting as specified |
| `DoipAnswers.HeaderAnswers` | src/doip/doip_server.cpp:101-118 | a version other than 02 FD is refused with code 00, a length of sixteen megabytes or more with code 02, each with a shutdown, behind the answers to the frames before it; no other leftover is answered |
| `DoipAnswers.ActivationAnswers` | src/doip/doip_server.cpp:193-260 | a request of 7 or 11 bytes is answered with tester and entity address and code 02 (other tester on the socket), 03 (tester on another socket), 01 (no socket left), 06 (type) or 10, the first that applies; all but 10 shut the connection down; any other length is refused with 04 and changes nothing |
| `DoipAnswers.DiagAnswers` | src/doip/doip_server.cpp:274-351 | ignored without routing or diagnostic server; length refused with 04; wrong source, unknown target and too much data refused in this order with codes 02, 03, 04 and target before source; all others handed on with addresses and data |
| `DoipAnswers.IdentificationAnswers` | src/doip/doip_server.cpp:165-191 | the identity goes out, byte by byte, for every plain request and exactly for those that start with the entity's own EID or VIN |
| `DoipAnswers.EntityStatusAnswer` | src/doip/doip_server.cpp:354-362 | node type, number of sockets, sockets in use and message size, byte by byte |
| `DoipAnswers.ShortAnswers` | src/doip/doip_server.cpp:262-368 | the answers to power mode and alive check requests, byte by byte |
| `DoipAnswers.UnknownTypeRefused` | src/doip/doip_server.cpp:133-163 | every type but the eight with a handler is refused with code 01 |
| `LeCodec.TakeTextExact` | src/ucm/ucm_protocol.h:41-82 | reading a string gives (t, rest) exactly when the bytes are t's encoding followed by rest |
| `LeCodec.TakePutTexts` | src/ota/package_manifest.h:30-55 | a list of strings is read back with the bytes behind it |
| `LeCodec.TakeTextsOnto` | src/ota/package_manifest.h:98-105 | whatever list is read, the bytes read are its encoding |
| `LeCodec.AppendText` | src/ucm/ucm_protocol.h:41-49 | appends the encoding |
| `LeCodec.ReadU32` | src/ucm/ucm_protocol.h:62-69 | reads and moves on, or fails and stays, by the bytes that are left |
| `LeCodec.ReadU64` | src/ucm/ucm_protocol.h:53-60 | the same for eight bytes |
| `LeCodec.ReadText` | src/ucm/ucm_protocol.h:71-95 | the same for a string or block |
| `LeCodec.ReadTexts` | src/ota/package_manifest.h:98-105 | the counted-list loop reads what the list decoder reads and completes at most one turn for every four bytes, whatever count is announced |
| `PackageManifest.ParseManifestExact` | src/ota/package_manifest.h:89-109 | a blob yields a manifest exactly when the manifest's canonical encoding is a prefix of it |
| `PackageManifest.UnpackExact` | src/ota/package_manifest.h:77-110 | unpacking succeeds with (m, p) exactly for length, blob and p in a row where m's canonical encoding is a prefix of the blob |
| `PackageManifest.UnpackPackage` | src/ota/package_manifest.h:58-110 | what was built comes out, manifest and payload |
| `WireLayout.PackageBytes` | src/ota/package_manifest.h:58-74 | a package byte by byte: manifest length, name, version, dependency count and texts, signature, payload, numbers least significant byte first |
| `PackageManifest.BuildPackage` | src/ota/package_manifest.h:58-74 | the building loops produce the canonical package |
| `PackageManifest.UnpackInto` | src/ota/package_manifest.h:77-110 | the reading loops accept and return what the parser does |
| `FilePaths.FileBelow` | src/ota/ucm_service.cpp:33-39 | a name without slash and NUL that is not empty, `.` or `..`, behind a directory and a slash, names its own entry of that directory, wherever other names lead |
| `FilePaths.DotSlash` | src/ota/ucm_service.cpp:33-39 | `./` behind the directory makes no difference to the file opened, in every file system |
| `FilePaths.ParentSlash` | src/ota/ucm_service.cpp:33-39 | nor does a detour through the parent directory where the directory's name leads back |
| `UcmModel.SafeIdsApart` | src/ota/ucm_service.cpp:33-39 | the three files of an id without slash and NUL are three, and two such ids share none |
| `UcmModel.IssuedIdSafe` | src/ota/ucm_service.cpp:79 | every id the service issues is without slash and NUL |
| `UcmSessions.OthersUntouched` | src/ota/ucm_service.cpp:66-221 | a call on one transfer leaves the session, files and accepted blocks of every transfer it shares no file with alone |
| `UcmSessions.IsolationExact` | src/ota/ucm_service.cpp:33-221 | for any two ids and any file system: calls on one leave the other alone in every state and whatever their outcome exactly when the two share no file |
| `UcmSessions.SafeIdsIsolated` | src/ota/ucm_service.cpp:33-221 | different ids without slash and NUL are isolated from each other |
| `UcmSessions.SoundExact` | src/ota/ucm_service.cpp:33-221 | for any id and any file system: calls on it keep what the session of another, safe one says of its file true exactly when the two share no file |
| `UcmSessions.DotAlias` | src/ota/ucm_service.cpp:33-39 | the id behind `./` is another id with the same files |
| `UcmSessions.ParentAlias` | src/ota/ucm_service.cpp:33-39 | so is the id behind `../` and the directory's own name, where that name leads back |
| `UcmSessions.OtherSpelling` | src/ota/ucm_service.cpp:97-131 | for every open transfer that waits for a block: sent under any alias of its id it is accepted, the package grows, the session stays, the transfer is no longer described by it and cannot be closed |
| `UcmSessions.OtherSpellingReached` | src/ota/ucm_service.cpp:66-131 | two calls from an empty service lead to such a state |
| `UcmSessions.SessionInvariant` | src/ota/ucm_service.cpp:66-221 | over every run of calls on safe ids and restarts each safe id's package file is the concatenation of its accepted blocks, the session counts them, stays within the announced size and expects the next one, and memory and disk agree |
| `UcmSessions.RefusedChangesNothing` | src/ota/ucm_service.cpp:66-221 | a refused call writes at most the image file of its id and hands nothing over; on safe ids it changes no package, no session and no accepted block |
| `UcmSessions.ExitExact` | src/ota/ucm_service.cpp:133-146 | a transfer closes exactly when its file is not empty and has the announced length |
| `UcmSessions.BlockAccepted` | src/ota/ucm_service.cpp:97-131 | for a safe id a block is accepted exactly when the transfer exists in memory or on disk, the counter is one more than the accepted blocks, it fits and the file opens; then the file gains exactly it |
| `UcmSessions.HandoverAuthentic` | src/ota/ucm_service.cpp:160-221 | one call hands over at most one image, only a successful processing does, and only an authentic one |
| `UcmSessions.OnlyAuthenticHandedOver` | src/ota/ucm_service.cpp:160-221 | over every run of calls on safe ids each image handed over is the payload of a package transferred block by block whose manifest carries its version and its signature |
| `UcmAnswers.AnnouncedInvariant` | src/ota/ucm_service.cpp:66-221 | over every run a session is persisted exactly while its transfer is announced, and holds the size announced when the id was issued |
| `UcmAnswers.TransferDataAnswers` | src/ota/ucm_service.cpp:97-131 | over every run each fault of a block has its code, told from what was announced and accepted: 1 no transfer, 15 not the next block, 18 too many bytes, 4 file not opened, looked for in this order; 0 exactly otherwise |
| `UcmAnswers.TransferExitAnswers` | src/ota/ucm_service.cpp:133-146 | over every run: 1 no session in memory, 5 nothing sent, 19 not exactly the announced bytes, 0 otherwise |
| `UcmAnswers.TransferStartAnswers` | src/ota/ucm_service.cpp:66-95 | code 4 for want of space, the id unused, or for a file that does not open, the id used up; otherwise the next number and blocks of 4096 bytes |
| `UcmAnswers.DeleteAnswers` | src/ota/ucm_service.cpp:148-156 | a known transfer loses session and files, no other does, and no block is taken for its id any more; an unknown one is code 1 |
| `UcmAnswers.ProcessExact` | src/ota/ucm_service.cpp:160-221 | for every session and file: success exactly when the file unpacks, the signature is the payload's, the version differs from the installed one, every dependency equals it, the digest is not empty and the manager accepts |
| `UcmAnswers.ProcessRefusals` | src/ota/ucm_service.cpp:160-221 | codes 1, 2, 3, 11, 12, 4 and 6, one for each of these conditions, the first that fails deciding |
| `UcmAnswers.ProcessLeaves` | src/ota/ucm_service.cpp:201-220 | a success hands over the payload under the path of the image file that holds it and drops the transfer; a refusal leaves at most the image file |
| `UcmAnswers.OnlyCompatibleHandedOver` | src/ota/ucm_service.cpp:160-221 | over every run each image handed over comes from one call on a complete, signed package of a version other than the one installed at that call, all of whose dependencies equal it |
| `UcmSessions.DataFromDisk` | src/ota/ucm_service.cpp:97-131 | a transfer call depends on the files of its own transfer alone: it gives the same answer and files from the session in memory and from the persisted one |
| `UcmSessions.RestartTransparent` | src/ota/ucm_service.cpp:41-221 | whatever calls on other transfers come in between, new transfers included, restarts anywhere change no answer to a transfer call on an id and none of its files and accepted blocks, as long as its transfer is not issued again, deleted or processed |
| `UcmSessions.TransfersTransparent` | src/ota/ucm_service.cpp:41-131 | in a script of transfer calls and restarts alone no answer, no file and no accepted block of any transfer changes |
| `UcmIds.NewIdEachTime` | src/ota/ucm_service.cpp:79 | over every run without restarts a transfer that is started gets an id that no transfer of the run was started under before |
| `UcmIds.DecimalValue` | src/ota/ucm_service.cpp:79 | an id is the decimal number of its transfer, digits only, without leading zeros |
| `UcmIds.StartEmpties` | src/ota/ucm_service.cpp:79-95 | a start cuts a file that holds something to nothing exactly if it is the package of the id it issues, and leaves every other but the new session file as it is |
| `UcmIds.RestartReissues` | src/ota/ucm_service.h:73 | the first transfer started after a restart is transfer 1 again; the blocks of one kept under that id are gone |
| `UcmService.UcmService.SaveSession` | src/ota/ucm_service.cpp:41-46 | the session file holds the three counters and no other file changes |
| `UcmService.UcmService.LoadSession` | src/ota/ucm_service.cpp:48-57 | the persisted session, none from a missing or short file |
| `UcmService.UcmService.TransferStart` | src/ota/ucm_service.cpp:66-95 | state, code, id and block size as specified, including both refusals |
| `UcmService.UcmService.TransferData` | src/ota/ucm_service.cpp:97-131 | state and code as specified, resuming from disk |
| `UcmService.UcmService.TransferExit` | src/ota/ucm_service.cpp:133-146 | the code as specified |
| `UcmService.UcmService.DeleteTransfer` | src/ota/ucm_service.cpp:148-156 | state and code as specified |
| `UcmService.UcmService.CheckContents` | src/ota/ucm_service.cpp:184-199 | the tests in order; passed exactly when the signature is the payload's, the version is a new one and every single dependency is the installed version |
| `UcmService.UcmService.ProcessSwPackage` | src/ota/ucm_service.cpp:160-221 | state and code as specified: what is kept and what is consumed at each way out |
| `UpdateAgent.SendBlock` | src/ota/update_agent.cpp:54-63 | the next block of a package under transfer is always accepted and extends what was sent |
| `UpdateAgent.SendBlocks` | src/ota/update_agent.cpp:52-63 | the block loop ends without a refusal, having sent the package in blocks counted from one, all full but the last |
| `UpdateAgent.ProcessSent` | src/ota/update_agent.cpp:65-74 | a completely sent package closes, and is installed exactly when version 1.0.0 is installed, the new version differs and the manager accepts |
| `UpdateAgent.AgentPackage` | src/ota/update_agent.cpp:37-42 | what the agent packs unpacks as platform, the version asked for, the one dependency 1.0.0, the payload and its HMAC |
| `UpdateAgent.Update` | src/ota/update_agent.cpp:17-77 | the client sequence succeeds exactly when nothing stands in its way; then the image handed over is the payload byte for byte under the requested version, and the accepted blocks, counted from one and full except the last, add up to the package |
| `Crc32.ShiftInjective` | src/ota/verify_strategy.cpp:92-94 | any number of division steps loses nothing of the register |
| `Crc32.TableStep` | src/ota/verify_strategy.cpp:70 | one table step is eight bit steps |
| `Crc32.RegisterSplit` | src/ota/verify_strategy.cpp:65-72 | the register is carried over however the file is cut into buffers |
| `Crc32.FourBytes` | src/ota/verify_strategy.cpp:68-71 | four bytes are thirty-two division steps of the register with the word mixed in |
| `Crc32.BurstDetected` | src/ota/verify_strategy.cpp:63-73 | files that differ only within at most four consecutive bytes have different checksums |
| `Crc32.RegisterMix` | src/ota/verify_strategy.cpp:63-73 | the difference of two registers depends only on the difference of their starts and of the streams |
| `Crc32.CollisionExact` | src/ota/verify_strategy.cpp:63-73 | two files of equal length have the same checksum exactly when their difference, fed from an empty register, leaves nothing |
| `Crc32.FiveByteBursts` | src/ota/verify_strategy.cpp:63-73 | a change within five consecutive bytes goes unseen exactly when the change of the last four is what eight division steps make of the change of the first |
| `Crc32.FiveBytesMayPass` | src/ota/verify_strategy.cpp:63-73 | such a change exists, and goes unseen wherever it occurs in a file |
| `Crc32.HexInjective` | src/ota/verify_strategy.cpp:14-23 | the hexadecimal form determines the bytes |
| `Crc32.DigestInjective` | src/ota/verify_strategy.cpp:75-81 | equal digests mean equal checksums |
| `Crc32.VerifyExact` | src/ota/verify_strategy.cpp:105-127 | against the digest of the original, an image of the same length passes exactly when the difference, fed alone from an empty register, leaves the register empty |
| `Crc32.VerifyDetectsBurst` | src/ota/verify_strategy.cpp:105-127 | against the digest of the original, an image changed within four consecutive bytes passes exactly when it is not changed at all |
| `Crc32.BuildTable` | src/ota/verify_strategy.cpp:87-99 | entry i is eight division steps of i |
| `Crc32.ComputeDigest` | src/ota/verify_strategy.cpp:56-82 | the buffered table loop gives every file the checksum of the bit-by-bit division, inverted at both ends, in eight digits; it fails, with an empty digest, exactly when the file cannot be opened |
| `Crc32Laws.Residue` | src/ota/verify_strategy.cpp:63-73 | for every file the register, started at FFFFFFFF, is DEBB20E3 after the file and its checksum, least significant byte first |
| `Crc32Laws.DigestValue` | src/ota/verify_strategy.cpp:75-81 | the digest is eight hexadecimal digits which, read most significant first, are the checksum |
| `Crc32Laws.PassesLetters` | src/ota/verify_strategy.cpp:105-127 | a file passes exactly when it opens and nothing is expected or the eight letters agree up to case |
| `Crc32Laws.CheckValue` | src/ota/verify_strategy.cpp:56-82 | the digest of "123456789" is cbf43926 |
| `Crc32Laws.EmptyFile` | src/ota/verify_strategy.cpp:56-82 | the digest of an empty file is 00000000 |
| `Crc32.BytesToHex` | src/ota/verify_strategy.cpp:14-23 | two lower-case digits for every byte |
| `Crc32.Verify` | src/ota/verify_strategy.cpp:105-127 | passes exactly files that open and agree with the expected digest up to letter case, or any that open when none is expected |
| `VersionManager.ParsePrintHistory` | src/ota/version_manager.cpp:58-82 | a history whose fields hold no separator is read back as it was printed |
| `VersionManager.ParseRecordExact` | src/ota/version_manager.cpp:58-69 | a line is read as a record exactly when it is the three fields between bars, the first two without a bar |
| `VersionManager.HistoryByLines` | src/ota/version_manager.cpp:57-69 | the file is read line by line, a last line without newline included, and a line that is no record counts for nothing |
| `VersionManager.LoadIsClean` | src/ota/version_manager.cpp:42-70 | whatever the files hold, nothing that is read contains a separator |
| `VersionManager.LoadPrintExact` | src/ota/version_manager.cpp:42-83 | loading what was saved gives the state back exactly when no from or to field holds a bar or newline and no result, current or target a newline |
| `VersionManager.LoadIsStable` | src/ota/version_manager.cpp:42-83 | for any files at all, saving what was loaded and loading again changes nothing |
| `VersionManager.VersionManager.constructor` | src/ota/version_manager.cpp:10-13 | the state is what the files hold |
| `VersionManager.VersionManager.ReadHistory` | src/ota/version_manager.cpp:57-69 | the line loop reads what the parser reads, skipping lines that are no record |
| `VersionManager.VersionManager.Save` | src/ota/version_manager.cpp:72-83 | the three files become the printed state |
| `VersionManager.VersionManager.SetCurrent` | src/ota/version_manager.cpp:27-30 | only the installed version changes, and the files follow |
| `VersionManager.VersionManager.SetTarget` | src/ota/version_manager.cpp:32-35 | only the target changes, and the files follow |
| `VersionManager.VersionManager.AddRecord` | src/ota/version_manager.cpp:37-40 | the history grows by one record at its end, and the files follow |
| `SlotManager.RollbackUndoesActivate` | src/ota/slot_manager.cpp:81-97 | a rollback after an activation restores the current slot and touches no content |
| `SlotManager.WriteLeaves` | src/ota/slot_manager.cpp:51-79 | however a write ends the target holds a prefix of the image, the new version only after a complete one, and the other slot stays |
| `SlotManager.MockSlotManager.OpenInactive` | src/ota/slot_manager.cpp:51-68 | the target is the slot that is not current, and its image is emptied |
| `SlotManager.MockSlotManager.FillSlot` | src/ota/slot_manager.cpp:69-79 | what each way the write can end leaves in the target; it succeeds only with all bytes, at least one, and the version written |
| `SlotManager.MockSlotManager.Activate` | src/ota/slot_manager.cpp:81-89 | refused without image and version; otherwise the slots swap and the old one is remembered, even when saving fails |
| `SlotManager.MockSlotManager.Rollback` | src/ota/slot_manager.cpp:91-97 | the remembered slot becomes current |
| `OtaManager.OtaManager.StartUpdate` | src/ota/ota_manager.cpp:40-61 | refused unless at rest, and reported as blocked exactly when a worker that has not returned would be joined; otherwise progress restarts and the worker is about to be created |
| `OtaManager.OtaManager.SwitchAndReboot` | src/ota/ota_manager.cpp:63-87 | every failure with the state it leaves |
| `OtaManager.OtaManager.ReportBootResult` | src/ota/ota_manager.cpp:89-119 | the call does what the specification does, whose outcomes `OtaOutcomes` gives in full |
| `OtaManager.OtaManager.Rollback` | src/ota/ota_manager.cpp:121-132 | manual rollback as specified |
| `OtaManager.OtaManager.WorkerStep` | src/ota/ota_manager.cpp:139-175 | the worker's next step as specified |
| `OtaSafety.StepSafe` | src/ota/ota_manager.cpp:40-175 | every API call and worker step keeps the joint invariant of progress, worker, slots and versions |
| `OtaSafety.VerifiedImage` | src/ota/ota_manager.cpp:40-175 | in every interleaving, a slot ready to be switched to holds exactly the staged bytes that passed verification under the target version; during the reboot and after success the current slot holds them, and on success the installed version is that slot's |
| `OtaSafety.CurrentSlotUnwritten` | src/ota/slot_manager.cpp:51-79 | no step of any run writes into the slot that is current |
| `OtaSafety.UpdateInvariant` | src/ota/ota_manager.cpp:40-175 | while an update runs, the slot it started from keeps its content, stays current until the switch and is the one to go back to afterwards, and the installed version moves only on success |
| `OtaSafety.RollbackFromRebooting` | src/ota/ota_manager.cpp:89-132 | a failed boot report or manual rollback that succeeds makes current the slot that was current when the update began, with its content, the installed version unchanged |
| `OtaSafety.RollbackFromReady` | src/ota/ota_manager.cpp:121-132 | a rollback before the switch keeps the running slot exactly when the last good slot was the current one as the update began, and otherwise makes the slot just written current |
| `OtaSafety.SuccessLeavesLastGoodBehind` | src/ota/slot_manager.cpp:81-97 | in every run, after success the last good slot is not the current one |
| `OtaSafety.RollbackFromReadyGoesWrong` | src/ota/ota_manager.cpp:121-132 | a run, two updates long, with automatic switching or without, whose rollback before the switch makes the unbooted slot current |
| `OtaSafety.ReadyInTwelve` | src/ota/ota_manager.cpp:139-171 | when nothing fails, twelve worker steps put the image and version into the inactive slot and change nothing else; with automatic switching the switch is the one step left |
| `OtaSafety.UpdateCompletes` | src/ota/ota_manager.cpp:139-175 | when nothing fails, the worker ends with the image in what was the inactive slot: ready to switch, or, with automatic switching, rebooting with that slot current and the old one as the one to go back to |
| `OtaOutcomes.PercentInvariant` | src/ota/ota_manager.cpp:139-175 | over every run state and percentage go together: 0, 1, 15, 55, 75, 90 and 100 for the states of an update, and a failure shows how far it had come |
| `OtaOutcomes.RecordInvariant` | src/ota/ota_manager.cpp:89-119 | over every run of an update it leaves no record while under way, one SUCCESS record from the old version to its own after success, and after a rollback at most one ROLLBACK record |
| `OtaOutcomes.BootSucceeds` | src/ota/ota_manager.cpp:89-106 | in every run of an update that reaches its reboot, a markable success report answers true, ends in success, leaves the slots with the new image running, installs the job's version and appends exactly the record from the old version to it |
| `OtaOutcomes.BootFails` | src/ota/ota_manager.cpp:108-118 | in every such run a markable failure report makes the old slot current and keeps the installed version; it answers true and appends exactly the ROLLBACK record if and only if the slot file was saved |
| `OtaOutcomes.ReportAnswers` | src/ota/ota_manager.cpp:89-119 | true exactly while the reboot is waited for, the result can be marked and, after a failure, the slot saved; unmarked reports only fail the update, others change nothing |
| `OtaOutcomes.SwitchAnswers` | src/ota/ota_manager.cpp:63-87 | in every run the switch answers true exactly when ready and no boot operation fails; then the slots have changed places and the board is rebooting; what each failure leaves |
| `OtaOutcomes.RollbackAnswers` | src/ota/ota_manager.cpp:121-132 | in every run a manual rollback answers true exactly when ready or rebooting and the slot file is saved; the last good slot is current either way |
| `OtaOutcomes.OnlyFilledSlots` | src/ota/slot_manager.cpp:81-104 | a slot without image or version never becomes current |
| `OtaOutcomes.StartAnswers` | src/ota/ota_manager.cpp:40-61 | a job is taken exactly between updates with the worker returned |
| `OtaOutcomes.UpdateSucceeds` | src/ota/ota_manager.cpp:40-175 | when nothing fails, start, worker, switch and success report end in success with image and version in the slot that was inactive and now runs, the old slot untouched and last good, the version installed and one record more |
| `OtaOutcomes.UpdateFails` | src/ota/ota_manager.cpp:139-171 | a missing source, a failed copy, a wrong digest and a failed slot write end in failure at 0, 15, 55 and 75 percent; versions, history and current slot stay, both slots do unless one was being written |
| `OtaSafety.BlockedExactly` | src/ota/ota_manager.cpp:44-59 | in every safe state a start call blocks exactly before the worker's first progress report, or when its automatic switch is still ahead in a state that allows a start |
| `OtaSafety.VersionLedger` | src/ota/ota_manager.cpp:89-119 | in every run the history only grows, each record starts from the version its predecessors lead to, and replaying the whole history gives the installed version |
| `OtaPipeline.DamageNeverInstalled` | src/ota/ota_manager.cpp:157-161 | in every run, an image damaged within four consecutive bytes after its digest was taken is never one a slot is ready with, reboots with or runs on |
| `OtaPipeline.EmptyImageFails` | src/ota/slot_manager.cpp:69-73 | an accepted update with an empty image ends in failure |
| `OtaPipeline.RunWorker` | src/ota/ota_manager.cpp:139-175 | the worker run undisturbed is the specification's run |
| `OtaPipeline.Deliver` | src/ota/update_agent.cpp:17-77 | from payload to slot: when files behave, an update of an idle manager goes through exactly when there is space, 1.0.0 is installed and the version differs; then what was the inactive slot holds the payload byte for byte under the new version, and the other slot, installed version and history are as before; a manager that switches on its own is rebooting into the payload |
| `OtaJoint.SettledStays` | src/ota/ucm_service.cpp:201-220 | as long as the process runs no call on a safe id changes the image file of a transfer that was handed over, or brings the transfer back |
| `OtaJoint.JointDelivery` | src/ota/ucm_service.cpp:160-221 | over every interleaving of calls on safe ids, manager calls and worker steps in one process, the slot that is ready, rebooting or running after an update holds byte for byte, under its version, the payload of an authentic package that was handed over |
| `EpollLoop.StepInv` | src/net/epoll/epoll_loop.cpp:59-86 | every step of a poster or of the loop thread keeps order, completeness and the wake-up condition |
| `EpollLoop.NoLostWakeup` | src/net/epoll/epoll_loop.cpp:59-86 | over all interleavings executed, taken and pending tasks in a row are the posted ones, and while something is pending the loop has been or is about to be woken or is about to look |
| `EpollLoop.LoopFinishes` | src/net/epoll/epoll_loop.cpp:70-107 | once no thread is inside `post`, the loop thread alone comes to rest after finitely many steps with every posted task executed in order |
| `UcmRpc.TakePutRows` | src/ucm/ucm_service_skeleton.cpp:126-155 | a counted list is read back entry by entry with the bytes behind it |
| `UcmRpc.AppendRows` | src/ucm/ucm_service_skeleton.cpp:126-171 | the skeleton's list loops write count and entries |
| `UcmRpc.ReadRows` | src/ucm/ucm_proxy.cpp:185-225 | the proxy's list loops read what the list decoder reads and stop at the first entry that is not there |
| `UcmRpc.BuildRequest` | src/ucm/ucm_proxy.cpp:26-319 | the request bytes of each of the 17 methods |
| `UcmRpc.ReadRequest` | src/ucm/ucm_service_skeleton.cpp:20-235 | what each handler makes of arbitrary request bytes |
| `UcmRpc.BuildResponse` | src/ucm/ucm_service_skeleton.cpp:14-235 | code and, on success, outputs |
| `UcmRpc.ReadResponse` | src/ucm/ucm_proxy.cpp:16-319 | what the proxy makes of arbitrary response bytes or of none |
| `UcmRpc.RequestRoundTrip` | src/ucm/ucm_proxy.cpp:26-319 | each request is read as the call it was built from |
| `UcmRpc.OutputsRoundTrip` | src/ucm/ucm_service_skeleton.cpp:20-235 | each method's outputs are read as they were written, lists and signed percentages included |
| `UcmRpc.Transparent` | src/ucm/ucm_service_skeleton.cpp:20-235 | for every service, state and call whose values fit their fields, the remote call leaves the same state and brings back the same code and outputs as the direct one |
| `UcmRpc.ConversationTransparent` | src/ucm/ucm_proxy.cpp:26-319 | a whole sequence of calls goes the same way remotely as directly |
| `UcmRpc.Unreadable` | src/ucm/ucm_service_skeleton.cpp:20-214 | a request that cannot be read does not reach the service and is answered as not permitted |
| `WireLayout.LittleEight` | src/ucm/ucm_protocol.h:32-42 | byte k of a little-endian number is the number shifted by k bytes, for all eight bytes |
| `WireLayout.UcmRequestBytes` | src/ucm/ucm_proxy.cpp:26-319 | method number and bytes of each request, field by field in their order, numbers least significant byte first |
| `WireLayout.UcmOutputBytes` | src/ucm/ucm_service_skeleton.cpp:20-235 | the bytes of each kind of outputs, field by field, lists and signed percentages included |
| `WireLayout.UcmOutputsOf` | src/ucm/ucm_proxy.cpp:26-319 | which kind of outputs each call brings back |
| `WireLayout.UcmResponseBytes` | src/ucm/ucm_service_skeleton.cpp:14-235 | four bytes of code and, with code 0 alone, the outputs; 05 00 00 00 for an unreadable request |
| `WireLayout.SessionFileBytes` | src/ota/ucm_service.cpp:41-46 | announced size, bytes received and next block, eight bytes each |
| `WireDecoding.UcmRequestExact` | src/ucm/ucm_service_skeleton.cpp:20-235 | arbitrary bytes are read as a call exactly when they come under its number and start with its encoding |
| `WireDecoding.UcmOutputsExact` | src/ucm/ucm_proxy.cpp:26-319 | arbitrary bytes are read as outputs exactly when they start with their encoding and every field fits |
| `WireDecoding.UcmReplyExact` | src/ucm/ucm_proxy.cpp:16-319 | success with outputs exactly for four zero bytes and their encoding; another code as it stands; code 5 for no response, a short one or unreadable outputs |
| `VehicleStatusRpc.ValueDigits` | src/vehicle_status/vehicle_status_protocol.cpp:17-66 | the digits of a number, read back, are the number |
| `VehicleStatusRpc.DigitAt` | src/vehicle_status/vehicle_status_protocol.cpp:17-21 | digit k is what shifting by the digits below it brings to the bottom |
| `VehicleStatusRpc.AppendU64` | src/vehicle_status/vehicle_status_protocol.cpp:17-21 | the shift loop appends the big-endian digits |
| `VehicleStatusRpc.ReadU64` | src/vehicle_status/vehicle_status_protocol.cpp:56-66 | the shift loop reads the big-endian value and moves on, or fails and stays |
| `VehicleStatusRpc.BuildRequest` | src/vehicle_status/vehicle_status_proxy.cpp:12-111 | the request bytes of each method |
| `VehicleStatusRpc.ReadRequest` | src/vehicle_status/vehicle_status_service_skeleton.cpp:60-107 | what each handler makes of arbitrary request bytes |
| `VehicleStatusRpc.AppendState` | src/vehicle_status/vehicle_status_protocol.cpp:28-33 | state, percentage and detail |
| `VehicleStatusRpc.ReadState` | src/vehicle_status/vehicle_status_protocol.cpp:78-86 | what is read from arbitrary notification bytes |
| `VehicleStatusRpc.BuildResponse` | src/vehicle_status/vehicle_status_service_skeleton.cpp:36-139 | code and, on success, outputs |
| `VehicleStatusRpc.ReadResponse` | src/vehicle_status/vehicle_status_proxy.cpp:12-120 | what the proxy makes of arbitrary response bytes or of none |
| `VehicleStatusRpc.NotificationRoundTrip` | src/vehicle_status/vehicle_status_proxy.cpp:122-135 | a notification is read as the state, percentage and detail it was built from |
| `VehicleStatusRpc.RequestRoundTrip` | src/vehicle_status/vehicle_status_proxy.cpp:12-120 | each request is read as the call it was built from |
| `VehicleStatusRpc.OutputsRoundTrip` | src/vehicle_status/vehicle_status_service_skeleton.cpp:36-139 | each method's outputs are read as they were written |
| `VehicleStatusRpc.Transparent` | src/vehicle_status/vehicle_status_service_skeleton.cpp:36-139 | for every service, state and call whose values fit their fields, the remote call is the direct one |
| `WireLayout.BigEight` | src/vehicle_status/vehicle_status_protocol.cpp:17-21 | byte k of a big-endian number is the number shifted by 7 - k bytes |
| `WireLayout.VehicleRequestBytes` | src/vehicle_status/vehicle_status_proxy.cpp:12-120 | method number and bytes of each request, field by field, numbers most significant byte first |
| `WireLayout.VehicleOutputBytes` | src/vehicle_status/vehicle_status_service_skeleton.cpp:36-139 | the bytes of each method's outputs, field by field |
| `WireLayout.VehicleResponseBytes` | src/vehicle_status/vehicle_status_service_skeleton.cpp:36-139 | four bytes of code and, with code 0 alone, the outputs; 00 00 00 01 for an unreadable request |
| `WireDecoding.VehicleRequestExact` | src/vehicle_status/vehicle_status_service_skeleton.cpp:60-107 | arbitrary bytes are read as a call exactly when they come under its number and start with its encoding |
| `WireDecoding.VehicleReplyExact` | src/vehicle_status/vehicle_status_proxy.cpp:12-120 | success with outputs exactly for four zero bytes and their encoding; another code as it stands; code 4 for everything unreadable |
| `LinuxAbSlotManager.OffsetExact` | src/ota/linuxab_slot_manager.cpp:144-148 | the shifted item offset is the true one exactly when the sum fits 32 bits |
| `LinuxAbSlotManager.LastItemInPlace` | src/ota/linuxab_slot_manager.cpp:142-163 | after a complete write the last item of a kind stands at the start of its partition byte for byte |
| `LinuxAbSlotManager.ItemsInBytes` | src/ota/linuxab_slot_manager.cpp:16-48 | a header is accepted exactly when its bytes are RKAF, at the front or where a header RKFW points, with 1 to 16 items; name, offset and size of each are those bytes of its 112-byte record |
| `LinuxAbSlotManager.FlashedLands` | src/ota/linuxab_slot_manager.cpp:142-163 | after a complete write the last item named boot or rootfs stands at the start of its partition, and a partition without an item is as it was |
| `LinuxAbSlotManager.WriteItem` | src/ota/linuxab_slot_manager.cpp:169-220 | for every pattern of short reads and writes the copy ends; on success the partition starts with the item's bytes and is otherwise as it was, on failure it holds some prefix of them; it fails only where a call fails or the item does not fit |
| `LinuxAbSlotManager.WriteItems` | src/ota/linuxab_slot_manager.cpp:142-163 | on success every boot and rootfs item was copied in order to its partition; without failing calls it succeeds when every item fits |
| `LinuxAbSlotManager.LinuxAbSlotManager.ReadHeader` | src/ota/linuxab_slot_manager.cpp:115-140 | the item table of either packing, none for a refused header |
| `LinuxAbSlotManager.LinuxAbSlotManager.WriteImageToInactive` | src/ota/linuxab_slot_manager.cpp:71-167 | while A runs boot_a and system_a stay whatever happens, and after a success boot_b and system_b hold the last items named boot and rootfs, from their stored offset and of their stored size, byte for byte; likewise for B; without failing calls it succeeds whenever the header is valid and every such item fits |

## Left out

- UDP discovery and announcements, logging, configuration files, demo programs and the Python tools.
- DoipServer.DoipServer.SendFrame: a send that fails part-way is not modelled, because sends are log entries. Socket,
  epoll and timer system calls are left out: events arrive with their time, and one event sees one value of the clock.
- DoipServer.DoipServer.HandleDiagMessage: the UDS server behind the indication, its replies and `SendDiagMessage` are
  not part of this model. The indication and the message handling that follows it are one log entry.
- `build_frame` with a null payload and a positive length, which no caller asks for.
- DoipRoutingTable.DoipRoutingTable.FdFor: addresses and sockets are unbounded numbers, so a 16-bit tester address and
  a socket descriptor are not told apart from larger ones; nothing in the code depends on the width.
- Overflow of `received_bytes` and `next_id_` in 64 bits, which needs 2^64 bytes or transfers. The wrap of the block
  counters is modelled.
- FilePaths.FileAt: the entries of the transfer directory are ordinary files, none a link to another, and a name that
  does not end in the directory itself leads where the file system says, the same way throughout a run; that removing
  a link removes the link and not the file is not modelled. A transfer directory whose configured name holds a NUL byte
  is not modelled.
- OtaJoint.JointDelivery: processing a package is one step, so that the manager does not move between the reading of
  the installed version and the start; a start that would block is taken as refused. A restart of the process is not
  part of a run.
- UcmService.UcmService.SaveSession: writing the session file succeeds, as do the other writes of the UCM service once a
  file has been opened, and the service stops only between calls.
- VersionManager.VersionManager.Save: the three version files can always be opened and written; a save that fails,
  which the code does not report, is not modelled.
- UcmSessions.RestartTransparent: is about the answers to transfer calls; closing, processing and deleting do not reload
  a session, so their answers may change.
- SHA-256 and HMAC are arbitrary functions. HTTP download, `statvfs` and reboot are inputs.
- The text of progress details and the progress callback.
- OtaManager.OtaManager.StartUpdate: a call that blocks takes no step in the model, and what becomes of its thread is
  not followed. Starts are taken one at a time, as the vehicle-status service makes them
  (src/vehicle_status/ota_vehicle_status_service.cpp:53).
- The text files `current_slot` and `last_good_slot` are a success flag of the call that writes them, and slot names
  other than A and B do not occur.
- EpollLoop.NoLostWakeup: the threads are steps of a state machine on values; the queue swap and each push are one step
  because they hold the mutex. `stop`, failures of `epoll_wait` and the other callbacks are not modelled.
- UcmRpc.Transparent and VehicleStatusRpc.Transparent: the service is an arbitrary function of state and call and the
  transport delivers bytes unchanged.
- UcmRpc.ReadResponse: output parameters that the proxy has filled before it reports an error are not modelled.
- VehicleStatusRpc.ReadResponse: the same holds for the vehicle-status proxy.
- UcmRpc.ReadRows: list entries are rows of strings in field order, turned into records after the loop.
- The vsomeip bindings, the common API adapters, the thread pool and the port loop.
- LinuxAbSlotManager.LinuxAbSlotManager.ReadHeader: a read of the image header that returns less than asked although
  the file is long enough is not modelled.
- The slot detection from the kernel command line and the boot control command of the board.
- The query methods of the UCM service that return constants or copy fields.
