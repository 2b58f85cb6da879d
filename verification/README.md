# A verified model of remgr's tunnel core

remgr bundles an frp-compatible tunnel server and client, a STUN/TURN server and
the supervisor around them. This project models the parts whose correctness is
hard to see from the code and proves what they promise:

* the control channel's byte stack: the byte-granular cipher object, the encrypted
  stream that sends an initial vector first and survives any pattern of partial
  writes, stalls and segmentation, and the length-prefixed frames on top;
* the frps server as a step system: the control registry and the online gauge, the
  shared port reservations, proxy registration through bind, response and
  publication, the writer task with its "written" latch, and the pool of work
  connections;
* the frpc client's multiplexer driver, its cap on udp user sockets, and its
  one-line proxy syntax together with the console's printer;
* TURN over TLS framing and the STUN Binding responder;
* the signal record codec and the log line reassembler.

`dafny verify dfyconfig.toml` checks everything.

## How to read it

| files | modules | what they hold |
|---|---|---|
| `Bytes`, `Text`, `Decimal` | same names | bytes, exclusive or, big-endian integers, strings, decimal numbers |
| `Cfb` | `CfbSpec`, `CfbCipher` | cipher feedback block by block; the cipher object that refines it byte by byte |
| `Transport`, `CryptoStream` | `Transport`, `CryptoStreams` | an adversarial transport; the encrypted stream |
| `Frames`, `FrameIo` | same names | the frame format; reading and writing frames, and both ends of a connection |
| `PortTables` | `PortTables`, `ControlObjects` | the shared tables as values; the server's objects that update them |
| `Frps` | `Frps`, `FrpsRegistry` | the server's steps and runs; the registry |
| `FrpsObjects` | same name | the objects carry out the steps |
| `FrpsClaims`, `FrpsPorts`, `FrpsSharedNames` | same names | what a control claims; port ownership and its exact conditions; runs that break it |
| `FrpsOrigins` | same name | where names, claims and reservations come from; stopping |
| `FrpsWriter`, `FrpsWire`, `WorkPool` | same names | responses before work; the order on the wire; work connections |
| `MuxDriver`, `UdpTunnels`, `UdpUsers`, `UdpCrowds`, `ProxyLine` | same names | the client |
| `Stun`, `Turn`, `Signals`, `Logging` | same names | the codecs |

**The environment.** AES under a key is an arbitrary function from blocks to blocks
(`BlockFn`); nothing is assumed about it. The transport (`Transport.Inner`) answers
every poll as two arbitrary functions of the poll's number say, so a theorem about
it holds for every schedule of partial moves, stalls, errors and end of file.
An awaited operation takes a bound on how often it is polled, which only says where
a finite run is cut: every cut of every run is covered. The write loops of the
encrypted stream do not end while the transport is ready and takes nothing; `idle`
says after how many such answers a run is cut there, and a transport that always
takes something never gets that far.

**Steps.** In the server and the client models a step is the code between two
awaits, and a run is any interleaving of steps. Two places in the server do more
than one locked operation in such a stretch and need that reading on a
multi-threaded runtime: looking at the proxy's token and then publishing it
(`remgr-frps/src/server.rs:1160-1165` and `1356-1363`), and looking at the control
map and then removing from it (`remgr-frps/src/server.rs:335-344`).

**Guards.** Some predicates have the form `forall k | Open(k) :: …`. `Open` is always
true, so they mean their body; the form only keeps the verifier from unfolding them
where nobody asked.

## What was found

* *Proxy names shared by two controls.* A reservation is keyed by port and proxy
  name, the same name is granted the same port twice, and the record that closing
  consults is keyed by name alone. Port ownership is proved for all runs in which no
  two controls use one name at the same time (`NamesNeverShared`), and it fails
  without that: the second control's failed bind takes the reservation from the
  first control's live proxy (`SharedNameLosesPort`), so does tearing down the first
  when the second is on record (`TearDownTakesPort`), and with two ports one of them
  stays reserved after everything has been torn down (`SharedNameLeaksPort`). The
  comment at `remgr-frps/src/server.rs:149-151` shows that names shared between
  clients were meant to be safe. One client is enough: if it reconnects while a bind
  is in progress and registers the same proxy, the failure of the old bind takes the
  port of the new, live proxy (`ReconnectLosesPort`). That nothing is left reserved
  in the end does hold for such a client (`NothingLeaks`).

  The exact conditions are proved for every step, from the guards of its branches
  (`StepEffect`), names shared or not: owners keep their ports if and only if nothing
  the step releases is claimed by another control or by the registration in flight of
  a control that is torn down (`OwnersKeepPortsIff`); no reservation loses its owner
  if and only if every proxy the step closes is the one on record under its name, or
  another control claims its port (`NoLeakIff`); live proxies stay on record if and
  only if the step neither closes nor publishes for another port a name that another
  control has live (`RecordsStayIff`). Over whole runs:
  `OwnersHoldThroughoutIff` and `NoLeakThroughoutIff`. For a single claim or
  reservation, in any state: `BereftIff` and `OrphanIff`, and with its history
  `OrphanHistoryIff` and `LeftReservedIff`.
* *The cap on udp user sockets* bounds the counter, not the descriptors. The comment
  at `remgr-frps/src/client.rs:98-101` counts each socket as a descriptor, but a
  tunnel's user table keeps its socket open after the user's task has ended and the
  counter has gone down. That step is the only one to add such sockets
  (`StaleGrowsIff`), and a run has none if and only if it never happens
  (`NeverStaleIff`); then the cap holds (`CapBoundsSockets`). In general the open
  sockets number at most 1023 plus 513 per permit (`OpenSocketCount`), and that is
  attained for any number of permits (`BoundIsAttained`). With three tunnels 1536
  sockets can be open while every counted one belongs to a live user
  (`CapDoesNotBoundSockets`).

## Model

| member | source | states |
|---|---|---|
| `Bytes.XorBitsAt` | remgr-frps/src/crypto.rs:71-75 | a bit of the exclusive or of any two numbers is set exactly when they differ in it |
| `Bytes.XorAt` | remgr-frps/src/crypto.rs:71-75 | so for bytes |
| `Bytes.Xor16At` | remgr/src/modules/stun_turn.rs:302 | and for sixteen bits |
| `Bytes.XorZero` | remgr-frps/src/crypto.rs:71-75 | a keystream byte of zero changes nothing |
| `Bytes.Xor16Bytes` | remgr/src/modules/stun_turn.rs:302 | sixteen bits are masked byte by byte |
| `Bytes.XorTwice` | remgr-frps/src/crypto.rs:72-76 | masking a byte twice with the same key byte gives it back |
| `Bytes.ToBeAt` | remgr-frps/src/msg.rs:352 | byte `i` of `width` has the place value 256 to the power of the bytes that follow it |
| `Bytes.FromBeAppend` | remgr-frps/src/msg.rs:336 | bytes in front count for more, by the number of those that follow |
| `Bytes.FromBeOne` | remgr-frps/src/msg.rs:336 | a single byte counts as itself |
| `Bytes.I64Is` | remgr-frps/src/msg.rs:336 | the length is the signed number with the same 64 bits |
| `Bytes.FromBeToBe` | remgr-frps/src/msg.rs:352 | big-endian bytes of any width read back as the number |
| `Bytes.ToBeFromBe` | remgr-frps/src/msg.rs:336 | and the number written again gives the bytes |
| `CfbSpec.TransformSnoc` | remgr-frps/src/crypto.rs:63-78 | one more byte of block-level CFB, in either direction, is masked with the keystream byte the register and the unfinished block select, and the ciphertext byte is fed back |
| `CfbSpec.EncryptAt` | remgr-frps/src/crypto.rs:62-80 | the mode position by position: each byte is masked with the byte at its place in the encryption of the ciphertext block in front of it, or of the initial vector (section 6.3 of NIST SP 800-38A) |
| `CfbSpec.DecryptAt` | remgr-frps/src/crypto.rs:62-80 | the same for decryption |
| `CfbSpec.DecryptEncrypt` | remgr-frps/src/crypto.rs:62-80 | decryption undoes encryption for every key, initial vector and length |
| `CfbSpec.EncryptDecrypt` | remgr-frps/src/crypto.rs:62-80 | and the other way round |
| `CfbSpec.TransformPrefix` | remgr-frps/src/crypto.rs:62-80 | the output for a prefix is a prefix of the output |
| `CfbSpec.CutsDoNotMatter` | remgr-frps/src/crypto.rs:62-80 | the stretches of the transform that belong to any chunks make up the transform of the whole |
| `CfbSpec.UnrelatedCutsInvert` | remgr-frps/src/crypto.rs:62-80 | encrypting under one set of cuts and decrypting under another gives the plaintext |
| `CfbCipher.Cfb.constructor` | remgr-frps/src/crypto.rs:48-53 | a new cipher is at the start of its stream |
| `CfbCipher.Cfb.Mask` | remgr-frps/src/crypto.rs:63-78 | the lazily refreshed register, keystream and ciphertext fields stay in step with block-level CFB |
| `CfbCipher.Cfb.Apply` | remgr-frps/src/crypto.rs:62-80 | transforms a stretch of a buffer in place and nothing else, continuing the stream where the last call left it: all output so far is the block-level transform of all input so far |
| `CfbCipher.Cfb.Outputs` | remgr-frps/src/crypto.rs:62-80 | after any sequence of calls the bytes produced are block-level CFB of the bytes fed |
| `CfbCipher.FeedChunks` | remgr-frps/src/crypto.rs:62-80 | calls of `apply` on chunk after chunk, from wherever the stream stands, return the stretches of the block-level transform |
| `CfbCipher.RoundTrip` | remgr-frps/src/crypto.rs:46-81 | an encrypting and a decrypting object under unrelated cuts give the plaintext back |
| `Transport.Prefixed.PollRead` | remgr-frps/src/server.rs:174-186 | the replayed byte comes first and is reported ready; a poll that is not ready moves nothing; no poll loses or repeats a byte, also with an empty buffer |
| `CryptoStreams.CryptoStream.constructor` | remgr-frps/src/crypto.rs:110-128 | nothing read, written or pending |
| `CryptoStreams.CryptoStream.ReadIv` | remgr-frps/src/crypto.rs:134-158 | collects the peer's initial vector over any number of polls; decryption starts when and only when all sixteen bytes are there |
| `CryptoStreams.CryptoStream.PollRead` | remgr-frps/src/crypto.rs:132-172 | appends decrypted bytes to the caller's buffer, keeps what was delivered, delivers nothing unless ready, and stalls only when the transport does |
| `CryptoStreams.CryptoStream.DeliveredIsPlain` | remgr-frps/src/crypto.rs:132-172 | in every reachable state the plaintext delivered is exactly the CFB decryption of what arrived, keyed by its first sixteen bytes, and empty before those |
| `CryptoStreams.CryptoStream.WriteIv` | remgr-frps/src/crypto.rs:178-189 | sends the rest of the initial vector; encryption starts when and only when it is out; stalls only when the transport does, and the loop is cut only if the transport is ready without taking anything |
| `CryptoStreams.CryptoStream.Latch` | remgr-frps/src/crypto.rs:193-197 | encrypts the caller's buffer once and keeps the ciphertext |
| `CryptoStreams.CryptoStream.Drain` | remgr-frps/src/crypto.rs:198-208 | sends what is waiting, reports its whole length or keeps the rest, stalls only when the transport does, and ends on every transport that takes something when ready |
| `CryptoStreams.CryptoStream.PollWrite` | remgr-frps/src/crypto.rs:176-209 | a buffer is taken exactly once however often its write is polled; ready means it is wholly with the transport; it stalls only when the transport does, and both loops end on every transport that takes something when ready |
| `CryptoStreams.CryptoStream.WireIsPrefix` | remgr-frps/src/crypto.rs:176-209 | in every reachable state the bytes accepted by the transport are a prefix of the initial vector followed by the encryption of all buffers taken, and all of it when nothing is pending |
| `Frames.ParseEncode` | remgr-frps/src/msg.rs:331-357 | a frame written is read back, whatever follows it |
| `Frames.FrameLayout` | remgr-frps/src/msg.rs:351-353 | the type byte, eight length bytes with the most significant first, the body |
| `Frames.FrameHeader` | remgr-frps/src/msg.rs:351-353 | the nine header bytes of an admissible frame, one by one |
| `Frames.ParseStrictPrefix` | remgr-frps/src/msg.rs:331-344 | part of a frame is neither a frame nor an error |
| `Frames.PrefixOfFrames` | remgr-frps/src/msg.rs:331-357 | from any prefix of the bytes of some frames the first of those frames are read, all of them from all the bytes, and never a bad length |
| `Frames.ParseAllAppend` | remgr-frps/src/msg.rs:331-344 | frames read one after the other are what the whole string holds |
| `Frames.EncodeOfParts` | remgr-frps/src/msg.rs:331-344 | a header with an admissible length and that many bytes are the encoding of a frame |
| `FrameIo.WriteAll` | remgr-frps/src/msg.rs:354 | a buffer goes to the stream once or not at all; done means all of it is out |
| `FrameIo.WriteFrame` | remgr-frps/src/msg.rs:347-357 | an admissible frame is sent once; an oversized one is refused and nothing is written |
| `FrameIo.SendFrames` | remgr-frps/src/server.rs:908-944 | frames in order until one fails; what was encrypted is the encoding of the first of them |
| `FrameIo.ReadExact` | remgr-frps/src/msg.rs:333-342 | the bytes returned are those delivered, and the wanted number when and only when done |
| `FrameIo.ReadFrame` | remgr-frps/src/msg.rs:331-344 | a frame is returned when exactly its encoding was consumed; a length out of range and an early end are told apart |
| `FrameIo.ReceiveFrames` | remgr-frps/src/server.rs:962-981 | the frames read are all that the delivered plaintext holds |
| `FrameIo.PlainOfWirePrefix` | remgr-frps/src/crypto.rs:131-209 | any prefix of the sender's wire decrypts to a prefix of the plaintext, the whole wire to all of it |
| `FrameIo.EndToEnd` | remgr-frps/src/crypto.rs:131-209 | whatever part of the wire has arrived, the frames read from it are a prefix of the frames written, and all of them once all arrived |
| `FrameIo.NeverOutOfRange` | remgr-frps/src/msg.rs:337-339 | behind any frames read from an honest sender there is never a length out of range |
| `FrameIo.Relay` | remgr-frps/src/crypto.rs:131-209 | a whole connection, for every schedule on both sides: the frames received are a prefix of the frames sent and no length is refused; when the sender finished, everything got through and no poll failed, a reader that did not stall has every frame; and on a transport that answers every poll at once all admissible frames arrive, unconditionally |
| `PortTables.Register` | remgr-frps/src/server.rs:133-147 | the port is reserved in the name and no other reservation changes |
| `PortTables.Release` | remgr-frps/src/server.rs:152-162 | exactly the reservation of that port in that name goes |
| `PortTables.CloseName` | remgr-frps/src/server.rs:300-308 | a name's record goes, and exactly the reservation on record with it |
| `PortTables.CloseNamesOneByOne` | remgr-frps/src/server.rs:327-330 | closing names one at a time, in any order, is closing them together |
| `PortTables.ReleaseUndoesRegister` | remgr-frps/src/server.rs:133-162 | releasing a fresh reservation restores the tables |
| `ControlObjects.ServerShared.RegisterProxyPort` | remgr-frps/src/server.rs:133-147 | refused exactly when another name has the port; otherwise reserved, and nothing else changes |
| `ControlObjects.ServerShared.ReleaseProxyPort` | remgr-frps/src/server.rs:152-162 | releases while still owned by the name |
| `ControlObjects.ControlState.CloseProxy` | remgr-frps/src/server.rs:300-308 | name, token, record and port go together |
| `ControlObjects.ControlState.CloseAll` | remgr-frps/src/server.rs:327-330 | every proxy of the control is closed, whatever the order |
| `ControlObjects.ControlState.Reserve` | remgr-frps/src/server.rs:1052-1096 | a request is ignored when the control is gone, accepted when its name is free and it asks for a plain proxy of a known type, refused otherwise; only an accepted one takes the name |
| `ControlObjects.ControlState.Teardown` | remgr-frps/src/server.rs:318-350 | cancels, drops the pooled connections unless a caller is receiving, closes every proxy, removes the registry entry only if it is this object, and moves the gauge only the first time |
| `ControlObjects.ControlState.Configure` | remgr-frps/src/server.rs:1111-1136 | goes on to the bind exactly when the port is allowed, free for the name and the address parses; otherwise the name is given back, and the port if it was reserved |
| `ControlObjects.ControlState.Conclude` | remgr-frps/src/server.rs:1160-1171 | publishes the proxy, or gives port, name and record back when its token is cancelled |
| `ControlObjects.ControlState.DrainPool` | remgr-frps/src/server.rs:324-326 | no pooled connection is left unless a caller is receiving |
| `FrpsObjects.TearDownStep` | remgr-frps/src/server.rs:318-350 | tearing down the object is the teardown step of the step system, for the registry, the gauge, the tables and every control |
| `FrpsObjects.ReplaceStep` | remgr-frps/src/server.rs:848-853 | a login that replaces a control carries out the replacing step |
| `FrpsObjects.NewProxyStep` | remgr-frps/src/server.rs:1052-1096 | reserving a name on the object is the step of the request, with the same outcome |
| `FrpsObjects.CloseStep` | remgr-frps/src/server.rs:300-308 | closing a proxy on the object is the closing step |
| `FrpsObjects.ConfigureStep` | remgr-frps/src/server.rs:1111-1136 | configuring a registration on the objects is its step |
| `FrpsObjects.BindFailedStep` | remgr-frps/src/server.rs:1137-1145 | giving up after a failed bind is its step |
| `FrpsObjects.ConcludeStep` | remgr-frps/src/server.rs:1160-1171 | publishing or undoing a registration is its step |
| `FrpsRegistry.TearDownKeeps` | remgr-frps/src/server.rs:318-350 | tearing down a control keeps every other registry entry, its own replacement included, and doing it again changes nothing more |
| `FrpsRegistry.StepKeeps` | remgr-frps/src/server.rs:844-902 | logging in, replacing, tearing down and stopping keep the registry in order |
| `FrpsRegistry.RegistryInEveryRun` | remgr-frps/src/server.rs:318-350 | in every run an entry under a run id is a control of that run id that has not been torn down, and the gauge is the number of controls created and not torn down |
| `FrpsClaims.TidyInEveryRun` | remgr-frps/src/server.rs:1052-1080 | in every run, names shared or not, a name in use belongs to the registration in flight or to one live proxy, and tokens tell proxies apart |
| `FrpsOrigins.NewProxyIff` | remgr-frps/src/server.rs:1052-1096 | a request goes on to be configured exactly when the control is there, the name is free and it asks for a plain proxy of a known type; otherwise nothing is claimed and, unless the control is gone, an error is on its way |
| `FrpsOrigins.EverythingWasAskedFor` | remgr-frps/src/server.rs:1083-1095 | in every run, at every point, each registration not refused, each spawned proxy, each reservation and each record comes from an earlier request for a plain proxy of that name, transport and port |
| `FrpsOrigins.NameWasAskedFor` | remgr-frps/src/server.rs:1083-1095 | and so does each name in use |
| `FrpsOrigins.NoSpawnAfterStop` | remgr-frps/src/server.rs:530-546 | once the server has been stopped nothing is spawned any more, for controls of that moment and for later logins |
| `FrpsPorts.StepExplained` | remgr-frps/src/server.rs:1052-1171 | every step that has an actor changes that control and the tables exactly as the effect read off its branches says |
| `FrpsPorts.OwnersKeepPortsIff` | remgr-frps/src/server.rs:133-162 | over any step every owner keeps its port if and only if no reservation released is claimed by another control, or by the registration in flight of a control that is torn down |
| `FrpsPorts.NoLeakIff` | remgr-frps/src/server.rs:300-308 | over any step no reservation loses its owner if and only if every proxy closed is the one on record under its name, or another control claims its port |
| `FrpsPorts.RecordsStayIff` | remgr-frps/src/server.rs:80-85 | over any step live proxies stay on record if and only if no name that another control has live is closed, or published for another port |
| `FrpsPorts.RecordsLive` | remgr-frps/src/server.rs:80-85 | over any step every record has a live proxy |
| `FrpsPorts.OwnersHoldThroughoutIff` | remgr-frps/src/server.rs:133-162 | along a run every owner has its port always if and only if every step is safe |
| `FrpsPorts.NoLeakThroughoutIff` | remgr-frps/src/server.rs:300-308 | along a run no reservation is ever without an owner if and only if every step is free of leaks |
| `FrpsPorts.OrphanIff` | remgr-frps/src/server.rs:300-308 | of any one reservation, whatever the rest looks like: it is without an owner after a step if and only if it was so and the step neither releases nor grants it, or the step drops the only claim to it without releasing it |
| `FrpsPorts.BereftIff` | remgr-frps/src/server.rs:133-162 | of any one claim: its port is not reserved after a step if and only if the claim survives and the step releases the reservation, or there was none and the step grants none |
| `FrpsPorts.OrphanHistoryIff` | remgr-frps/src/server.rs:300-308 | at any point of a run a reservation is without an owner if and only if some step abandoned it and none since has released it or granted it anew |
| `FrpsPorts.LeftReservedIff` | remgr-frps/src/server.rs:1155-1164 | with all controls down and all registrations returned a port is still reserved if and only if some step abandoned it and none since has released it or granted it anew |
| `FrpsPorts.UnsharedIsSafe` | remgr-frps/src/server.rs:139-144 | while no name is shared every step meets all three conditions |
| `FrpsPorts.StepKeeps` | remgr-frps/src/server.rs:1052-1171 | every step keeps port ownership while no two controls share a name |
| `FrpsPorts.PortsInEveryRun` | remgr-frps/src/server.rs:1052-1171 | in every such run reservations and owners correspond, and so do records and live proxies |
| `FrpsPorts.ReservationHasOneOwner` | remgr-frps/src/server.rs:133-162 | every reservation belongs to exactly one proxy, registering or live under the reserved name, of exactly one control |
| `FrpsPorts.LiveHoldsPort` | remgr-frps/src/server.rs:1165-1171 | every live proxy holds its port |
| `FrpsPorts.NothingLeaks` | remgr-frps/src/server.rs:1160-1164 | once all controls are down and all registrations have returned, those torn down in the middle of a bind included, all tables are empty; this needs only that no name is in two controls' proxy maps at once, so a client may be back under the same name meanwhile |
| `FrpsSharedNames.SharedNameLosesPort` | remgr-frps/src/server.rs:139-144 | for every name, transport and port there is a run in which a shared name costs a live proxy its port |
| `FrpsSharedNames.ReconnectLosesPort` | remgr-frps/src/server.rs:1137-1145 | for every name, transport and port there is a run with one client, which reconnects while its registration is binding, in which its new live proxy loses its port |
| `FrpsSharedNames.TearDownTakesPort` | remgr-frps/src/server.rs:327-330 | for every name, transport and pair of ports there is a run in which a teardown takes another control's live port |
| `FrpsSharedNames.SharedNameLeaksPort` | remgr-frps/src/server.rs:300-308 | for every name, transport and pair of ports there is a run after which, with everything torn down, a port is still reserved |
| `FrpsWriter.WroteKeeps` | remgr-frps/src/server.rs:930-942 | a write, good or bad, settles exactly the latch of the message written, and a failed one those behind it |
| `FrpsWriter.StepKeeps` | remgr-frps/src/server.rs:904-946 | every step keeps latches, wire and spawned tasks consistent |
| `FrpsWriter.WritersInEveryRun` | remgr-frps/src/server.rs:904-946 | and so they are in every run |
| `FrpsWriter.ResponseBeforeWork` | remgr-frps/src/server.rs:253-266 | while no write of a control has failed, a work connection is started only for a registration whose success response is on the wire |
| `FrpsWriter.WaitEndsWithWriter` | remgr-frps/src/server.rs:263-265 | no registration waits for a latch once the writer has stopped |
| `FrpsWriter.NoSpawnAfterCancel` | remgr-frps/src/server.rs:1155-1164 | once a control is cancelled, whatever it was waiting for, no proxy task is spawned for it in the rest of the run |
| `FrpsWire.WireInOrder` | remgr-frps/src/server.rs:904-946 | in every run the messages of a control reach the wire in the order in which they were queued, none left out, the queue keeps within its 256, and nothing is written once the writer has stopped, after a failed write in particular |
| `WorkPool.Clamp` | remgr-frps/src/server.rs:949 | the admissible pool size nearest to the one requested |
| `WorkPool.PoolInEveryRun` | remgr-frps/src/server.rs:269-298 | in every run no connection is in two places, the books balance, and one caller at a time receives |
| `WorkPool.Conservation` | remgr-frps/src/server.rs:269-298 | waiting, owed and handed-out connections add up to the pool requests and the call requests sent; once the pool loop is done the former are the clamped pool count |
| `WorkPool.OneRequestPerCall` | remgr-frps/src/server.rs:276-283 | the requests sent by calls are as many as the calls past theirs |
| `WorkPool.NoSharing` | remgr-frps/src/server.rs:269-298 | no connection is handed to two callers |
| `WorkPool.PooledIsTaken` | remgr-frps/src/server.rs:271-283 | a call that finds a pooled connection has it at once and goes on to request a replacement; one that finds none requests one and waits |
| `WorkPool.FirstComeFirstServed` | remgr-frps/src/server.rs:269-298 | in every run the connections that came into the channel are those handed out, in that order, followed by those in it, of which there are at most 64 |
| `MuxDriver.ServePending` | remgr-frps/src/client.rs:729-751 | the newest requests get the streams opened, one for every poll that opened one; a failure answers the whole queue and empties it; otherwise what cannot be served stays |
| `MuxDriver.Drain` | remgr-frps/src/client.rs:779-781 | every queued request gets an error, oldest first |
| `MuxDriver.ServedIds` | remgr-frps/src/client.rs:729-735 | the requests served and those left are the queue |
| `MuxDriver.Drive` | remgr-frps/src/client.rs:721-782 | for every sequence of wake-ups and replies each request that a wake-up brought is answered exactly once or still queued, successful answers are as many as the polls that opened a stream, the loop ends on the first ending event and on no other, and then nothing is queued |
| `UdpTunnels.MakeRoom` | remgr-frps/src/client.rs:1806-1822 | a full table loses its dead users, or all, and then has room |
| `UdpUsers.RoomIsMadeSparingly` | remgr-frps/src/client.rs:1806-1820 | only a full table loses users when a new one comes: exactly the dead ones, or all when none is dead |
| `UdpUsers.KnownUserKeepsSocket` | remgr-frps/src/client.rs:1821-1822 | a datagram of a live user opens, counts, replaces and closes nothing |
| `UdpUsers.UsersInEveryRun` | remgr-frps/src/client.rs:1821-1896 | in every run a socket whose task runs and has not been cancelled is the one its tunnel's table has for the user it was connected for |
| `UdpUsers.OneSocketPerUser` | remgr-frps/src/client.rs:1821-1896 | so no user of a tunnel has two of them |
| `UdpUsers.EndOfTunnel` | remgr-frps/src/client.rs:1900 | the end of a tunnel gives its permit back and leaves only sockets of unfinished tasks open |
| `UdpTunnels.UdpInEveryRun` | remgr-frps/src/client.rs:1806-1888 | in every run the counter is the number of unfinished user tasks, together with the tunnels about to open a socket it stays within 1023 plus the permits, and no table exceeds 512 users |
| `UdpTunnels.OpenSocketCount` | remgr-frps/src/client.rs:1823-1888 | the open sockets are exactly those counted, those bound and not yet counted, and those of ended tasks still in a table; at most 1023 plus 513 per permit, and without the last kind at most 1023 plus the permits |
| `UdpTunnels.StaleGrowsIff` | remgr-frps/src/client.rs:1863-1888 | a step adds to the sockets open past their task if and only if it ends a task whose user is in a table |
| `UdpTunnels.NeverStaleIff` | remgr-frps/src/client.rs:1863-1888 | along a run there are no such sockets if and only if no step is of that kind |
| `UdpTunnels.CapBoundsSockets` | remgr-frps/src/client.rs:98-102 | in such a run at most 1023 plus the permits sockets are open |
| `UdpCrowds.CapDoesNotBoundSockets` | remgr-frps/src/client.rs:98-102 | a run with three tunnels in which 1024 counted sockets belong to live users and 512 more are open |
| `UdpCrowds.BoundIsAttained` | remgr-frps/src/client.rs:94-102 | for any number of permits a run in which 1023 plus 513 per permit sockets are open |
| `Decimal.DigitsAt` | remgr/src/signals.rs:179-186 | the digit at each place of a printed number |
| `Decimal.DigitChars` | remgr/src/signals.rs:180 | the ten digits |
| `Decimal.ParseDigitsAppend` | remgr-frps/src/client.rs:201-203 | digits in front count for more, by the number of those that follow |
| `Decimal.ParsePrinted` | remgr-frps/src/client.rs:201-203 | a printed number parses back exactly when its sign is allowed and it is in range |
| `ProxyLine.ParseLine` | remgr-frps/src/client.rs:181-238 | the token loop computes the meaning of the line: last type, first address, both ports, or the first error |
| `ProxyLine.AcceptedIff` | remgr-frps/src/client.rs:181-238 | accepted exactly with a name, no number out of range, at most one address and two ports |
| `ProxyLine.FieldsAreWords` | remgr-frps/src/client.rs:182-185 | words put into a line with any separators in front, between and behind are its fields |
| `ProxyLine.SeparatorIs` | remgr-frps/src/client.rs:183 | the separators, one by one |
| `ProxyLine.KindIff` | remgr-frps/src/client.rs:199-200 | the type is recognised in any mixture of cases |
| `ProxyLine.NumberIs` | remgr-frps/src/client.rs:201-206 | a number is a port, out of range, or too long to be taken for one |
| `ProxyLine.AcceptedIsPrintable` | remgr-frps/src/client.rs:181-238 | what a line denotes has word fields, a known type and ports in range |
| `ProxyLine.ReadPrinted` | remgr/src/console/assets/index.html:568-570 | the console's line for such a proxy reads back as that proxy |
| `ProxyLine.SampleLine` | remgr/src/console/assets/index.html:568-570 | a line as the console shows it |
| `ProxyLine.NormalForm` | remgr/src/console/assets/index.html:568-570 | printing an accepted line and reading it again changes nothing |
| `ProxyLine.RoundTripIff` | remgr/src/console/assets/index.html:568-570 | exactly the proxies that a line can denote survive the round trip |
| `Stun.AsksForAlternateAddress` | remgr/src/modules/stun_turn.rs:330-352 | the walk ends, stays inside the datagram and agrees with the recursively defined attribute list (section 15 of RFC 5389) |
| `Bytes.PadFills` | remgr/src/modules/stun_turn.rs:349 | the padding fills up to a multiple of four |
| `Stun.TrailingBytesIgnored` | remgr/src/modules/stun_turn.rs:326-331 | bytes behind the declared length change no attribute |
| `Stun.AnswerableIgnoresTrailing` | remgr/src/modules/stun_turn.rs:365-384 | nor whether the datagram is answered |
| `Stun.AttrsRoundTrip` | remgr/src/modules/stun_turn.rs:397-404 | any attribute list written with padding reads back |
| `Stun.XorMappedAddress` | remgr/src/modules/stun_turn.rs:300-320 | the family, the port masked with the first two bytes of the cookie, the octets masked with cookie and transaction id; undoing the mask gives back address and port, for IPv4 and IPv6 (section 15.2 of RFC 5389) |
| `Stun.ResponseBytes` | remgr/src/modules/stun_turn.rs:391-404 | the response to an IPv4 client, byte by byte |
| `Stun.AsksIff` | remgr/src/modules/stun_turn.rs:338-342 | the attributes that ask for another address, by number, unless all zero |
| `Stun.AnswerableBytes` | remgr/src/modules/stun_turn.rs:355-380 | what the first bytes of an answered request are |
| `Stun.ResponseAnswers` | remgr/src/modules/stun_turn.rs:386-404 | the response has its real length, a multiple of four, the request's transaction id, and exactly two attributes, of which the first unmasks to the source |
| `Stun.ProcessStunPacket` | remgr/src/modules/stun_turn.rs:354-408 | a datagram is answered exactly when it is a well-formed Binding request that asks for no other address, and the reply answers it |
| `Turn.FramedShape` | remgr/src/modules/stun_turn.rs:784-791 | the header of every well-formed message, padded or not, gives the length of its frame on the stream, its kind, and the length without padding |
| `Turn.ParseFramed` | remgr/src/modules/stun_turn.rs:837-895 | a message put on the wire, padded before or not, is read back without padding, whatever follows |
| `Turn.ParsePartial` | remgr/src/modules/stun_turn.rs:837-868 | part of a message is only waited for |
| `Turn.PrefixOfMessages` | remgr/src/modules/stun_turn.rs:837-895 | from any part of the stream the first of the messages sent are read, all of them from all of it, and nothing is refused |
| `Turn.ReadBytes` | remgr/src/modules/stun_turn.rs:841-868 | the bytes returned are those taken from the stream, and the wanted number when and only when done |
| `Turn.RecvFrom` | remgr/src/modules/stun_turn.rs:837-877 | one message lands in the buffer when exactly its frame was consumed; a reserved type, a frame that does not fit and an early end are told apart |
| `Turn.SendTo` | remgr/src/modules/stun_turn.rs:883-895 | what goes out is a prefix of the padded message, and all of it when and only when done; a write that takes nothing is an error; broken and stalled outcomes are the transport's |
| `Turn.RecvAll` | remgr/src/modules/stun_turn.rs:837-877 | repeated receives return all messages the bytes taken hold |
| `Turn.Relay` | remgr/src/modules/stun_turn.rs:837-895 | for every segmentation and schedule the messages received are the first of those sent, in order and without padding, and none is refused; when the sender finished, everything got through and no poll failed, a receiver that did not stall has every message; and on a transport that answers every poll at once all of them arrive, unconditionally (section 11.5 of RFC 5766) |
| `Signals.Put` | remgr/src/signals.rs:161-171 | the buffer with the text in place, cut off at its end, and where it ends |
| `Signals.ReversedDigits` | remgr/src/signals.rs:175-186 | the digits of any 64-bit magnitude fit the scratch array and are the decimal digits, reversed |
| `Signals.PutInt` | remgr/src/signals.rs:173-195 | the decimal form of any 64-bit number |
| `Signals.RecordBytes` | remgr/src/signals.rs:214-227 | for all four values the record takes at most 72 of the 80 bytes and is the complete text |
| `Signals.ParseRecord` | remgr/src/signals.rs:264-277 | a record's line parses to exactly the four numbers |
| `Signals.ParseIff` | remgr/src/signals.rs:264-277 | a line is read as a record exactly when it spells out four numbers of the right types behind their labels |
| `Signals.LinesConsCr` | remgr/src/signals.rs:283 | a line ends at its newline, together with a carriage return before it |
| `Signals.LastLine` | remgr/src/signals.rs:283 | a last line needs no newline |
| `Signals.SampleRecord` | remgr/src/signals.rs:211-227 | a record as it stands in the log |
| `Signals.ParseAllRecords` | remgr/src/signals.rs:282-284 | any number of records in one text are all read back, in order |
| `Logging.LogHub.PushLine` | remgr/src/logging.rs:284-298 | the ring holds the last 1000 lines ever pushed, and the file and the subscribers are handed every line once, in order |
| `Logging.LogHub.Snapshot` | remgr/src/logging.rs:300-304 | the last lines pushed, as many as asked for or as the ring holds, in order |
| `Logging.LogHub.Ingest` | remgr/src/logging.rs:310-330 | pushes the complete non-empty lines, right-trimmed, keeps a rest without newline of at most 64 KiB, and pushes a longer one |
| `Logging.CutAnywhere` | remgr/src/logging.rs:310-319 | cutting a text anywhere and carrying the rest over gives the same lines and the same rest |
| `Text.TrimEndDrops` | remgr/src/logging.rs:315 | trimming cuts off nothing but white space |
| `Text.ByteLenIs` | remgr/src/logging.rs:322 | the length compared with the limit is that of the text in UTF-8 |
| `Logging.LinesOfText` | remgr/src/logging.rs:313-319 | a text made of lines and an unfinished one yields those lines, trimmed and without the empty ones, and that rest |
| `Logging.IngestsClean` | remgr/src/logging.rs:313-319 | a line without trailing white space is pushed as it is |
| `Logging.CutsDoNotShow` | remgr/src/logging.rs:310-330 | while no rest grows past the limit, any chunks push exactly the lines of the whole text |
| `Logging.Feed` | remgr/src/logging.rs:310-330 | a hub fed chunk by chunk |

## Left out

- AES, PBKDF2, MD5, TLS, yamux, JSON and TOML: foreign code; AES is an arbitrary block function, a frame's body is bytes.
- Authentication, certificates and cryptographic strength: not functional properties of this code.
- Flushing and shutting down the streams: passed through to the transport unchanged.
- FrameIo.Relay: delivery is unconditional on a transport that answers every poll at once; on one that stalls, how often it has to be polled again is not bounded, since it may stall for ever.
- Frps: the reader's other messages (ping and unknown types), the idle monitor's clock, the bind retry and the message bodies; a bind succeeds or fails, a port is allowed or not, and an address parses or not, as the environment chooses.
- Frps: a response that cannot be serialised, which the writer skips; a server that is started again after a stop; traffic and login totals.
- Frps: that cancellation is noticed within a bounded time; a cancelled writer may quit at any later step.
- WorkPool.Conservation: is about an open control whose client answers each request with one connection; the draining of the pool at teardown and calls cut short by it are not steps of that model.
- UdpTunnels: the datagrams themselves, their queues and the idle timer; a user's task may end at any step.
- UdpTunnels: a tunnel that fails or is cancelled ends in one step, in which its table and its half-opened socket go.
- MuxDriver.Drive: does not model which of several ready wake-ups is chosen; every choice is one of the event sequences.
- Stun.ProcessStunPacket: returns the reply instead of sending it.
- Turn: the notification of a closed connection and the locks around both halves.
- Signals: how the kernel splits a read of the pipe; records are read whole.
- Logging.LogHub.PushLine: one caller at a time; the source gives up the lock of the unfinished line before it pushes an overlong one, and locks ring and file one after the other, so concurrent callers can appear in different orders there.
- Logging: the rotation of the log file and subscribers that lag behind; what is handed to both is modelled.
- ProxyLine: the wording of error messages; errors carry what they are about.
- The frpc supervisor and its configuration reload, the EasyTier and RustDesk modules, the TURN relay's allocations, the web console and its router, and platform code: plumbing, or behaviour that lives in unseen dependencies.
