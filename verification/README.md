# A verified model of udpfile

udpfile downloads a directory from a server over encrypted UDP. The server packs the directory
into one archive and serves it in chunks; the client keeps a sliding window of 64 chunk requests,
writes chunks in order, and unpacks the archive. This project models that program in Dafny and
proves what it is for.

How the modules build on each other:

- `Bytes`, `Words`, `Codec`, `Layout`: big-endian integers, `uint64` words with their bits, the nine
  packet types with every size bound, and their datagrams byte by byte.
- `Replay`, `Secure`, `Channel`: the 256-packet replay bitmap, a session that seals and opens, and
  one direction of a session over whole runs of an unreliable network.
- `Chunks`, `Receiver`, `SendWindow`: chunk arithmetic, the client's receive loop, and the server's
  moving bitmap of sent chunks. The loops and bitmaps are classes and methods; each is proved
  against a function of its old state, and the laws are about those functions.
- `Reception`: what the receive loop does after any events, event by event, told by what `Receive`
  does with one event more, and exactly when it finishes.
- `Transfer`, `Progress`, `Completion`, `Endings`: client, server, preparing goroutine and network as
  one transition system. Safety over all runs, agreement of the two windows, the possibility of
  completion from every state in which the session lives, and how downloads and sessions end.
- `AnyServer`: the same client when the other end may say anything.
- `Handshake`: key agreement and HKDF, who is accepted, and what the keys bind.
- `Carriage`, `Datagrams`: the same download over bytes. The ends encode, seal, open and decode,
  and the network carries datagrams, its own or anyone's; every such run is a run of `Transfer`, and
  every run of `Transfer` is such a run, so safety and completion hold of the bytes on the wire.
- `SessionTable`, `SessionHistory`, `ServerHandlers`: the session map under every interleaving of the
  serving goroutine with the preparing goroutines, what a session keeps from one action to the
  next, and the handlers as methods that update the map.
- `Paths`, `Archive`, `Extraction`: lexical path cleaning and containment, the flatten/rebuild round
  trip in a file system that checks permissions, and what extraction makes of any archive.
- `Registry`: the browser's bounded registry of transfers and its download slots.
- `ServerCredentials`: first-start publication of credentials by callers that may be killed, and
  what becomes of a directory that has lost a key.
- `Pairing`: the pairing token, both ways and letter by letter.

Cryptography is known only through laws: opening inverts sealing and nothing else opens, a key
exchange commutes, verification accepts what was signed, digests have 32 bytes. Theorems over runs
add ideal authenticity: a datagram that is some packet's sealed form was sealed by the other end.
The network of `Transfer` is the set of all packets ever sent; any of them may arrive at any time,
any number of times, or never. In `Datagrams` any bytes at all may arrive as well.

## Where the code is not what one would expect

- `DecodeMeta` adds in `uint64`, and the sum wraps near 2^64. `Codec.AcceptedMetaIsConsistent` says
  exactly when an accepted count is the true ceiling; `Codec.WrappingMetaIsAccepted` is an input
  for which it is not. A server's meta is never affected (`Chunks.PreparedMetaIsAccepted`).
- `prepare` leaves its temporary file behind when `archive.Create` fails before it opens its output,
  which it does for empty, absolute and escaping paths, for those that do not lead to a directory
  below the shared root, and where the temporary archive cannot stand. `SessionTable.WhatIsLeftBehind`
  says that a file stays if and only if it was made for such a request;
  `SessionTable.DotsLeaveTheirFile` is a run in which a request for `..` leaves one.
- The server records a chunk after sending it. In between, its `sentWindowBase` can be behind the
  client's next chunk to write (`Completion.RecordingLags` is a run for every non-empty archive), only
  when the chunk just sent is the base itself, and by at most the client's window
  (`Transfer.WindowsAgree`), so no request is ever refused for it.
- `EncodeError` rewrites the empty message and cuts a long one, and `DecodeError` accepts both, so
  encoding inverts decoding exactly for messages of 1 to 1164 bytes (`Codec.EncodeInvertsDecode`).
- Had `Extract` set directory modes in archive order, a closed parent would stop it
  (`Archive.ShallowFirstFails`); deepest first it cannot happen.

## Model

| member | source | states |
|---|---|---|
| Codec.DecodeInvertsEncode | internal/protocol/protocol.go:58-311 | For every packet an encoder emits, the decoder of its type returns the same request identifier and packet; the exceptions are exact: a meta with wrong counts is refused, an error message comes back as rewritten |
| Codec.EncodeInvertsDecode | internal/protocol/protocol.go:69-311 | Re-encoding what a decoder accepted gives back the very datagram; for error packets if and only if the message has 1 to 1164 bytes |
| Codec.DecodersAreDisjoint | internal/protocol/protocol.go:286-311 | No datagram is accepted by two typed decoders, and `Header` agrees with the one that accepts |
| Codec.EncodedSizes | internal/protocol/protocol.go:11-18 | Every encoded datagram fits 1232 bytes, and those of types Request to Done fit what encryption leaves |
| Layout.DatagramBytes | internal/protocol/protocol.go:11-284 | Every encoder accepts exactly the packets whose fields have the stated sizes, and then emits UDF2, version 2, its type byte 1 to 9, the identifier, and its fields in order, integers most significant byte first |
| Layout.Digits8 | internal/protocol/protocol.go:167 | A `uint64` is its upper and lower half, each in four bytes |
| Codec.AcceptedMetaIsConsistent | internal/protocol/protocol.go:188-197 | An accepted meta counts its chunks correctly if and only if the `uint64` sum did not wrap |
| Codec.WrappingMetaIsAccepted | internal/protocol/protocol.go:191-197 | 2^64-1 bytes in no chunks is accepted |
| Replay.ShiftReplayWindow | internal/secure/session.go:239-258 | The four words end as the exact 256-bit shift of the old ones, with carries across words, for every distance |
| Secure.Session.AcceptInboundSequence | internal/secure/session.go:218-237 | True exactly when the sequence is above the highest accepted one, or less than 256 below it and never accepted; the bitmap keeps standing for the set of accepted sequences |
| Secure.Session.Seal | internal/secure/session.go:155-180 | Each refusal of the code in its order; otherwise the counter goes up by one and the result is the wire form under the new sequence |
| Secure.Session.Open | internal/secure/session.go:182-216 | Each refusal of the code in its order; the replay state changes only after authentication, and stays changed when the inner packet is then malformed |
| Secure.WireShape | internal/secure/session.go:172-180 | A sealed packet fits 1232 bytes, decodes as a secure packet, and its first 30 bytes are its associated data |
| Secure.WireBytes | internal/secure/session.go:172-180 | After header and big-endian sequence a sealed packet is the cipher text of the inner packet, under four zero bytes and the sequence as nonce, authenticating the 30 bytes before it |
| Secure.SealsIff | internal/secure/session.go:155-180 | Sealing succeeds if and only if the packet is a well-formed one of this session and an inner type, has at most 1186 bytes, and fewer than 2^32-1 were sealed; only then is a sequence spent |
| Secure.OpensAuthentic | internal/secure/session.go:182-237 | A datagram that authenticates opens if and only if its sequence is above the highest accepted, or less than 256 below and new, and its packet belongs to the session; such a sequence counts as accepted even if the packet does not belong |
| Secure.OnlyAuthentic | internal/secure/session.go:182-206 | No other datagram opens or changes anything |
| Channel.OpensWire | internal/secure/session.go:182-216 | Opening a genuine packet yields what was sealed if its sequence is fresh, and otherwise changes nothing |
| Channel.OnlyWiresCount | internal/secure/session.go:194-206 | Whatever changes the receiver or opens is the sealed form of some packet under a fresh sequence: a datagram that fails authentication leaves the replay state as it was |
| Channel.NoncesAreDistinct | internal/secure/session.go:260-264 | Different sequences have different nonces, the deterministic construction of section 8.2.1 of NIST SP 800-38D |
| Channel.RunKeepsInv | internal/secure/session.go:155-237 | Over every run: as many packets sealed as the counter says, under sequences 1, 2, 3 and so on, and the receiver's log, accepted set and sealed packets agree |
| Channel.OpensExactlyOnce | internal/secure/session.go:155-237 | Over every run with duplication and reordering, what is handed on is what was sealed under that sequence, and no sequence is handed on twice |
| Channel.ArrivalOpensIff | internal/secure/session.go:218-237 | A sealed packet opens if and only if it did not before and the highest accepted sequence is less than 256 ahead of it; otherwise the receiver does not change |
| Carriage.PacketIsSealed | internal/secure/session.go:155-180 | Sealing an encoded packet spends exactly the next sequence |
| Carriage.PacketTravels | internal/secure/session.go:155-216 | A typed packet encoded, sealed, carried, opened and decoded arrives as itself, once |
| Carriage.LoopReadsPacket | internal/client/client.go:316-333 | What the receive loop does with a packet's bytes is what it does with the packet |
| Chunks.PreparedMetaIsAccepted | internal/server/server.go:296-312 | For every archive below 2^63 bytes a meta is made if and only if the count fits 32 bits, and then it passes `DecodeMeta` and counts truly |
| Chunks.LengthsAgree | internal/client/client.go:382-389 | For every index the client's wrapping unsigned length equals the server's signed one, lies in 1 to the chunk size, and stays inside the archive |
| Chunks.JoinedIsPrefix | internal/server/server.go:357-363 | The chunks the server cuts, joined in order, are a prefix of the archive, and all of them are the archive |
| Receiver.ChunkReceiver.FillWindow | internal/client/client.go:275-284 | Requests exactly the indices the window gained, in order, up to the first that cannot be sent |
| Receiver.ChunkReceiver.RequestMissing | internal/client/client.go:295-305 | On a timeout requests exactly the unbuffered indices of the window, in order |
| Receiver.ChunkReceiver.DrainBuffer | internal/client/client.go:347-359 | Writes the chunks that are next, and nothing else |
| Receiver.ChunkReceiver.HandleData | internal/client/client.go:334-362 | Chunks outside the window or already there are ignored, one of a wrong length ends the transfer, any other is stored, written as far as possible, and the window refilled |
| Receiver.ChunkReceiver.HandlePacket | internal/client/client.go:316-362 | The same from the bytes of a decrypted packet |
| Receiver.ChunkReceiver.TakeTurn | internal/client/client.go:290-363 | One turn of the loop, whatever it waits for, is what `React` says of the event, to the variables, the requests sent and the outcome; the `Reception` rows say what that is |
| Receiver.ChunkReceiver.RunLoop | internal/client/client.go:289-364 | The loop over any stream of events ends in the variables, requests and result of `Loop` on them |
| Receiver.ChunkReceiver.ReceiveChunks | internal/client/client.go:271-364 | First window, then the loop: variables, requests in order, packets spent and result are those of `Receive` on the very events, which the `Reception` rows determine |
| Reception.FirstWindow | internal/client/client.go:275-288 | Before any event the indices 0, 1, 2 and so on are requested, as many as 64, the archive and the room for requests allow; no chunks at all means success at once |
| Reception.AfterTimeout | internal/client/client.go:295-305 | After any events, one timeout more requests exactly the unbuffered indices of the window, ascending, and changes nothing else; if they cannot all be sent, the lowest of them, and the transfer ends |
| Reception.AfterUseless | internal/client/client.go:309-329 | A datagram that does not open, or whose packet is neither a chunk nor an error, changes nothing |
| Reception.AfterFatal | internal/client/client.go:290-333 | An interruption, a failed read, an error packet or a malformed chunk packet ends the transfer, nothing else changed |
| Reception.AfterStale | internal/client/client.go:334-339 | A chunk outside the window or already there changes nothing, whatever its length |
| Reception.AfterWrongLength | internal/client/client.go:340-343 | A missing chunk of the wrong length ends the transfer and is not kept |
| Reception.AfterChunk | internal/client/client.go:344-364 | A missing chunk of the right length is kept; the next to write is then the first not kept, the indices the window gains are requested in order, and the last chunk ends the transfer with the bytes written |
| Reception.Kinds | internal/client/client.go:289-363 | Those are all the events there are |
| Reception.StoredCameWhenAsked | internal/client/client.go:271-364 | Whatever happens, each chunk kept came, with those bytes, after its index had been requested |
| Reception.CompletesIff | internal/client/client.go:271-364 | When nothing ends the transfer and the requests can be sent (one for each chunk and 64 for each timeout are enough), it returns the meta's size if and only if every chunk comes after it was requested, and otherwise still waits |
| Receiver.ReceivesWhatArrived | internal/client/client.go:271-364 | Whatever arrives, times out or fails: each chunk written is the data of a packet that arrived under its index with the length due, in order and once; exactly the indices below the window's end are requested; success means the last chunk was written and the count returned is the bytes written and the meta's size |
| Receiver.MissingExact | internal/client/client.go:296-303 | What a timeout requests: exactly the unbuffered indices of the window, ascending, the next one to write first |
| Receiver.BufferBound | internal/client/client.go:271-363 | At every loop head the window is full, buffered keys lie strictly inside it, and there are at most 63 |
| Receiver.HandleKeeps | internal/client/client.go:320-363 | One packet grows the output and window only, stores at most one chunk, and leaves a loop head behind unless it ends the transfer |
| Receiver.DoneWhenAllStored | internal/client/client.go:289-364 | The loop ends if and only if as many different chunks were stored as there are; `received` is at every loop head the size of the chunks written |
| SendWindow.ShiftSentChunkWindow | internal/server/server.go:420-427 | The exact 256-bit shift down by one |
| SendWindow.ServedArchive.MarkChunkSent | internal/server/server.go:395-414 | True exactly the first time an index in the window is marked; base and bitmap keep standing for the set of sent chunks |
| SendWindow.ServedArchive.Advance | internal/server/server.go:409-412 | The shift loop ends, with the base on the least unsent index, never past the chunk count |
| SendWindow.ServedArchive.ReadChunk | internal/server/server.go:357-363 | The bytes read are the chunk of that index |
| SendWindow.ServedArchive.RecordSent | internal/server/server.go:381-389 | The counters stay the number of sent chunks and the sum of their lengths |
| SendWindow.ServedArchive.HandleGet | internal/server/server.go:345-393 | Ignored exactly when preparing, beyond the archive or too far ahead; otherwise answered with that very chunk, and only a chunk that was sent counts |
| SendWindow.SentBytesBound | internal/server/server.go:382-388 | The bytes sent never exceed those there are, and reach them if and only if every chunk was sent |
| SendWindow.AllSentIff | internal/server/server.go:382-388 | `sentBytes` is the archive's size if and only if all chunks were sent, and if and only if the base has reached the chunk count |
| Transfer.StepKeepsInv | internal/client/client.go:245-365 | Every step of client, server, preparation or network keeps the invariant of the whole system, the send split from its recording |
| Transfer.DownloadIsSafe | internal/client/client.go:158-190 | In every run the bytes written are the archive cut at the next chunk to write; after the loop they are all of it; length, checksum, meta and chunk checks never end a download |
| Transfer.WindowsAgree | internal/server/server.go:352-418 | In every run the recorded base is at least the client's next chunk to write, unless the chunk sent and not yet recorded is the base itself, and then it lags by at most 64; every request the client ever made, however delayed, is inside the recorded window at all times |
| Transfer.StepKeepsNear | internal/server/server.go:352-389 | No chunk is ever sent 64 or more beyond the recorded base |
| Transfer.StepKeepsPhase | internal/server/server.go:315-332 | Once the client has its meta, or a meta is on its way, the preparation is over for good |
| Progress.RequestIsAnswered | internal/server/server.go:345-393 | So an honest request that opens on a live session is answered with its chunk |
| Progress.TimeoutArms | internal/client/client.go:295-305 | After a timeout every missing index of the window has a request on the network that no replay check can refuse |
| Progress.CanAlwaysComplete | internal/client/client.go:289-364 | From every reachable receiving state whose session is not gone, with a packet left per missing chunk on both sides, one timeout and one request and reply per missing chunk complete the download |
| Progress.AnyRunCanComplete | internal/client/client.go:289-364 | Hence every run that gets there can be continued to the whole archive, in at most two steps plus three per missing chunk |
| Completion.MetaIsTaken | internal/client/client.go:245-287 | When the first window's requests can be sealed, the meta of an acceptable archive starts the receive loop with exactly those, each of which no replay check can refuse |
| Completion.AwaitingRunCanComplete | internal/client/client.go:245-364 | Every run whose client still awaits its meta, the session unrequested, preparing or ready, can be continued to the whole archive with at most one request and a packet per chunk left to seal |
| Endings.SignOffEnds | internal/client/client.go:184-187 | Once every check is passed, the sign-off, its delivery and the delivery of the answer end download and session, from every reachable state in which packets can be sealed |
| Endings.FailureIsReported | internal/server/server.go:335-343 | A failed preparation and the delivery of its report end the waiting client's download, and the session |
| Endings.ReadErrorIsReported | internal/server/server.go:362-368 | A chunk that cannot be read is reported, which ends the download; nothing counts as sent |
| AnyServer.FinishedIsVerified | internal/client/client.go:158-191 | Whatever the other end says: after the checks as many bytes are written as an acceptable meta announced, within the client's limit and with that meta's checksum; and the length check fails only for a meta whose `uint64` sum wraps |
| AnyServer.ReceivingEnds | internal/client/client.go:174-183 | Whatever packet opens while chunks are missing, once none is missing length and checksum alone decide between wrong length, wrong checksum and success; an error packet ends the download |
| AnyServer.MetaDecides | internal/client/client.go:158-164 | The first meta that opens is refused if and only if its chunk size or count is off, or it exceeds the client's limit; otherwise the loop begins on it |
| AnyServer.FinishingEnds | internal/client/client.go:184-191 | After the checks an answer or an error ends the download, nothing else that opens does, and what was written stays |
| Completion.RecordingLags | internal/server/server.go:373-389 | A run after which the client has written a chunk that the recorded window does not count as sent |
| Datagrams.StepAgrees | internal/client/client.go:391-449 | A step of encoding, sealing, opening and decoding leads where the step of sealed packets leads |
| Datagrams.RunAgrees | internal/server/server.go:210-240 | Every run of datagrams, genuine, repeated, reordered, lost or foreign, is a run of sealed packets |
| Datagrams.RunInBytes | internal/secure/session.go:155-216 | Every run of sealed packets is a run of datagrams |
| Datagrams.BytesAreSafe | internal/client/client.go:158-190 | Whatever datagrams arrive that nobody forged, the bytes written are the archive cut at the next chunk to write, all of it after the loop, and no check ends the download |
| Datagrams.BytesCanComplete | internal/client/client.go:289-364 | Every run of datagrams whose client is receiving on a live session can be continued to the whole archive |
| Datagrams.AwaitingBytesCanComplete | internal/client/client.go:245-364 | So can every one whose client still awaits its meta |
| Datagrams.HandshakeStarts | internal/secure/session.go:75-153 | An honest handshake leaves the two ends exactly where those runs start |
| Handshake.HkdfExpand | internal/secure/session.go:336-348 | HKDF-Expand of section 2.3 of RFC 5869 for every length up to 255 times 32; the byte counter's wrap is never used |
| Handshake.DeriveDirectionalKeys | internal/secure/session.go:319-334 | The two keys of 32 bytes are together the 64-byte HKDF expansion of the extract of the shared key, salted with an HMAC under the secret of the label and both nonces, for the label and the transcript; written out to the HMAC calls |
| Handshake.KeysBind | internal/secure/session.go:306-334 | Two handshakes with the same client key agree on the shared key, the secret, both nonces, the identifier and both public keys, unless `hmac` or `hash` collides on these very handshakes |
| Handshake.PurposesDiffer | internal/secure/session.go:295-328 | What is authenticated under the secret and what the salt is made of are never the same bytes |
| Handshake.Labels | internal/secure/session.go:22-27 | The four labels, as text |
| Handshake.NewClientIff | internal/secure/session.go:53-73 | A hello is made if and only if the secret has 32 bytes |
| Handshake.AcceptIff | internal/secure/session.go:75-123 | Any hello is accepted if and only if secret and identity are usable, it decodes, its authentication is the HMAC under the secret of all it says, and the exchange succeeds; the reply then signs everything both hellos say |
| Handshake.CompleteIff | internal/secure/session.go:125-153 | Any reply completes if and only if the pinned identity is usable, it decodes, is for this request, its signature verifies over everything both hellos say, and the exchange succeeds |
| Handshake.HelloArrives | internal/secure/session.go:53-73 | An honest client's hello is always made, and decodes to what the client put there |
| Handshake.HandshakeAgrees | internal/secure/session.go:75-153 | The server accepts an honest hello if and only if the key exchange succeeds; then the client completes with the reply, and each end's outbound key is the other's inbound key |
| SessionTable.StepKeepsInv | internal/server/server.go:165-343 | Every step of the serving goroutine and of any preparation keeps the table's invariant |
| SessionTable.TableIsSafe | internal/server/server.go:165-343 | In every run: at most the maximum of sessions, at most one preparation and one archive per session, and chunks are counted only with the archive open and on disk |
| SessionTable.ArchivesAreOwned | internal/server/server.go:291-332 | Every archive `Create` finished is owned by the one running preparation or the one live session it was made for, never both, or it is closed and removed |
| SessionTable.StepKeepsGuard | internal/server/server.go:278-343 | A file is left behind if and only if it was made for a request that `Create` refuses, once its `Create` has ended |
| SessionTable.WhatIsLeftBehind | internal/server/server.go:291-295 | When no session and no preparation is left, no handle is open, and a temporary file is on disk if and only if it was made for a request that the guard of `Create` refuses |
| SessionTable.DotsAreRefused | internal/archive/archive.go:133-140 | The path `..` can be asked for, and every site refuses it |
| SessionTable.EarlyErrorLeavesItsFile | internal/server/server.go:291-295 | On any site, one request for any refused path leaves its temporary file |
| SessionTable.DotsLeaveTheirFile | internal/server/server.go:291-295 | One request for `..` does |
| SessionTable.RefusesIff | internal/archive/archive.go:133-175 | The refused paths are those with nothing before their first slash, those that lead out of some directory, and those that lead to nothing that can be archived |
| SessionHistory.ChunksAreCounted | internal/server/server.go:296-326 | In every run a live session with an archive has exactly the chunks with which `Create` finished that archive |
| SessionHistory.SessionsKeep | internal/server/server.go:165-343 | In every run a session keeps identifier, address, hello and reply, and its path, archive and chunk count once it has them |
| SessionHistory.FirstReplyAgain | internal/server/server.go:171-208 | The hello that made a session, repeated at any later time while it lives, gets the reply it was made with, and nothing else changes |
| SessionHistory.PreparationMakesReady | internal/server/server.go:278-328 | After any run, a preparation in which nothing fails, for a live session and a path that is not refused, leaves that session not preparing, with the counted chunks and a new archive open and on disk, and every other as it was |
| SessionHistory.OneRequestIsServed | internal/server/server.go:165-328 | On every site with room, one client's request for any path that is not refused ends with its session live and ready with the counted chunks |
| SessionTable.RepeatedHelloSameReply | internal/server/server.go:171-181 | The same hello from the same address is answered, while the session lives, with the bytes of every earlier answer, and changes nothing else |
| ServerHandlers.Server.HandleClientHello | internal/server/server.go:165-186 | Keeps the table's invariant; goes on to the handshake exactly for a new identifier while there is room, and answers a repeated hello with the bytes of its session |
| ServerHandlers.Server.FinishClientHello | internal/server/server.go:188-208 | Keeps the invariant; after checking again, adds one session never seen before under the identifier and answers it, or changes nothing |
| ServerHandlers.Server.HandleRequest | internal/server/server.go:242-276 | Keeps the invariant; the running preparations gain exactly the session's if it had no path yet, which then has this path and is preparing and is otherwise as it was; no other session or preparation changes |
| ServerHandlers.Server.MakeTemporaryFile | internal/server/server.go:278-289 | Keeps the invariant; a file new on disk belongs to this preparation, or it is over and its session gone |
| ServerHandlers.Server.AfterCreate | internal/server/server.go:291-304 | Keeps the invariant; after a success the preparation has its file and exactly the counted chunks; after any error it is over and its session gone, and only an early one leaves the file |
| ServerHandlers.Server.AfterOpen | internal/server/server.go:305-310 | Keeps the invariant; the preparation holds the same file, now open, and the same chunks; or it is over, its session gone and the file removed |
| ServerHandlers.Server.EndPreparation | internal/server/server.go:335-343 | The preparation ends, and exactly the session it was for goes, if the table still names it |
| ServerHandlers.Server.CommitPreparation | internal/server/server.go:315-328 | Keeps the invariant; the session has the open archive and its chunk count if the table still names it, and otherwise the archive is neither open nor on disk |
| ServerHandlers.Server.HandleDone | internal/server/server.go:429-444 | Keeps the invariant; removes the session if and only if the address is its own, and no other |
| ServerHandlers.Server.CloseAndDelete | internal/server/server.go:501-508 | Keeps the invariant; exactly this session goes, and exactly its archive is closed and removed |
| ServerHandlers.Server.CleanupExpired | internal/server/server.go:479-490 | Keeps the invariant; closes exactly the stale sessions, in whatever order the map is ranged over |
| ServerHandlers.Server.CloseSessions | internal/server/server.go:492-499 | Keeps the invariant; closes all of them, whatever the order |
| ServerHandlers.CloseEachKeeps | internal/server/server.go:479-499 | Closing any sessions one after the other keeps the table's invariant |
| Paths.CleanIsCleaned | internal/archive/archive.go:282-291 | Every cleaned relative path is some `..` followed by ordinary components |
| Paths.CleanKeepsMeaning | internal/archive/archive.go:282-291 | Cleaning does not change where a path leads, from any directory |
| Paths.SafeIffStrictlyBelow | internal/archive/archive.go:282-291 | `safeArchivePath` accepts a name if and only if something stands before its first slash and it leads strictly below every directory it is read from; the result is the way down |
| Paths.JoinSplit | internal/archive/archive.go:282-291 | What lies between the slashes of a name, joined with slashes, is the name |
| Paths.EscapesIffOutside | internal/archive/archive.go:173-175 | For cleaned relative paths `relativePathEscapesRoot` is true if and only if from some directory the path leads outside it |
| Paths.EntryNameIsSafe | internal/archive/archive.go:83-91 | The name `Create` gives an entry leads `Extract` to the same place |
| Archive.WalkIsFlatten | internal/archive/archive.go:62-108 | The walk succeeds if and only if the file bytes are within the limit (or there is none), and then lists every entry, a directory before what it holds |
| Archive.Extract | internal/archive/archive.go:217-274 | The entry loop and the mode loop, in place on a file system, do what the two functions of the entries say, errors included; the `Extraction` rows and the round trip say what that is |
| Extraction.ExtractedIsTheArchive | internal/archive/archive.go:217-274 | Whatever archive is extracted: every entry lies where its name leads below the destination, as file or directory, with its contents and each of its nine permission bits, no file after an entry of the same name; and nothing else was made but directories on the way, with 0755 |
| Extraction.UnsafeNameStops | internal/archive/archive.go:226-229 | One entry whose name leads outside some directory, or nowhere below it, and extraction fails |
| Archive.ExtractsEntries | internal/archive/archive.go:219-256 | In any workable directory with the names free, the entry loop adds exactly the flattened tree, directories still open |
| Archive.DeepestFirstApplies | internal/archive/archive.go:258-269 | In any deepest-first order every mode can be set, no ancestor having been restricted, and nothing else changes |
| Archive.RoundTrip | internal/archive/archive.go:62-274 | For every tree, limit and way to break ties: extraction of what was created gives back the same names and no others, the same contents, and each of the nine permission bits of every file and directory |
| Archive.ShallowFirstFails | internal/archive/archive.go:258-269 | Setting modes in archive order would fail for a directory inside one without permissions |
| Registry.Handler.RemoveExpired | internal/webui/handler.go:429-435 | Removes exactly the finished transfers last updated more than ten minutes ago |
| Registry.Handler.RemoveOldestTerminal | internal/webui/handler.go:437-454 | Removes one finished transfer than which none finished earlier; fails only if none is finished |
| Registry.Handler.BeginTransfer | internal/webui/handler.go:379-392 | Refuses exactly a known task id, and any when all 128 are unfinished; otherwise adds one that is starting with nothing done, making room for it only by an oldest finished one; no other changes |
| Registry.Handler.Observe | internal/webui/handler.go:394-413 | No task is added, removed or touched but this one, which shows the latest figures and is not finished |
| Registry.Handler.FinishTransfer | internal/webui/handler.go:415-427 | No task is added, removed or touched but this one, which is finished as said, keeps its figures but for 100 percent when completed, and expires exactly ten minutes on |
| Registry.UnfinishedAreRunning | internal/webui/handler.go:226-245 | The unfinished transfers are exactly those of the requests that run, so no more than the slots held |
| Registry.RefusedOnlyIfKnown | internal/webui/handler.go:379-392 | A slot holder is refused only for a known task id, unless more than 128 slots are held |
| Registry.OnlyFinishedGo | internal/webui/handler.go:429-454 | A transfer that leaves the registry is finished, and its time is over or it is an oldest finished one of a full registry |
| Registry.RegistryIsBounded | internal/webui/handler.go:226-454 | In every run: at most 128 transfers, unfinished ones at most the held slots, and with at most 128 slots a holder is admitted if and only if its task id is not in the map |
| ServerCredentials.ConfigurationDirectory.LoadOrCreate | internal/appconfig/automatic.go:58-125 | The whole call, each file-system call working, failing or killing the process, is the run of the step machine, of which the rows below say what comes out |
| ServerCredentials.ConfigurationDirectory.Recreate | internal/appconfig/automatic.go:73-79 | An interrupted creation is cleared away first, perhaps only in part |
| ServerCredentials.ConfigurationDirectory.Create | internal/appconfig/automatic.go:87-109 | Nothing reaches the final path while the material is staged |
| ServerCredentials.ConfigurationDirectory.Publish | internal/appconfig/automatic.go:110-124 | One rename publishes all; a rename that fails loads what stands there |
| ServerCredentials.AdvanceKeeps | internal/appconfig/automatic.go:58-124 | One call of the lock holder, whatever its fate, keeps the final path sound and never replaces complete credentials |
| ServerCredentials.CredentialsAgree | internal/appconfig/automatic.go:44-125 | However callers interleave and die, the final path is absent, lacks `credentials.json` or is complete (or is no directory from the start); all callers that return, return the same, and at most one reports to have created it |
| ServerCredentials.PublishedForGood | internal/appconfig/automatic.go:58-124 | Once complete credentials are published, nothing that follows replaces them |
| ServerCredentials.UndisturbedReturns | internal/appconfig/automatic.go:58-125 | A caller that nothing disturbs returns what then stands there, unless no directory is in the way, and creates it, from its own material, if and only if there was none |
| ServerCredentials.NeverRekeys | internal/appconfig/automatic.go:67-72 | Where `credentials.json` is, with whatever keys: a call changes nothing at the final path and creates nothing, whatever becomes of it; undisturbed it returns what is there if and only if both keys are there and match and the secret has 32 bytes |
| ServerCredentials.NobodyRekeys | internal/appconfig/automatic.go:67-72 | Nor does any interleaving of callers, killed anywhere, ever change that path |
| ServerCredentials.TroubleFromNothing | internal/appconfig/automatic.go:87-125 | A caller that finds nothing makes nine calls; if any of them is the first to fail or to kill it, it returns nothing, and the final path is empty up to the rename and holds all of the material after it |
| ServerCredentials.RenameFallsBack | internal/appconfig/automatic.go:110-115 | A rename that fails, or meets something, leaves the final path alone, and the caller returns what stands there, if it is complete, as not its own |
| Pairing.Encode | internal/pairing/token.go:22-44 | Filling the body in place yields the token as specified; every refusal in its order |
| Pairing.Decode64Encode64 | internal/pairing/token.go:43-58 | Unpadded base64url, section 5 of RFC 4648: decoding inverts encoding |
| Pairing.TokenBytes | internal/pairing/token.go:22-44 | A token is made if and only if the secret has 32 bytes, the key 2048 to 4096 bits and its encoding at most 65535 bytes; it is UDF2- and the letters of 1, the secret, the two-byte size, the encoding, and the first eight bytes of the hash of all that |
| Pairing.LettersOfSextets | internal/pairing/token.go:43 | Each letter of the base64url text is that of its six bits in table 2 of RFC 4648 |
| Pairing.SextetsAreDigits | internal/pairing/token.go:43 | Three bytes are written as the four digits to base 64 of their 24-bit number, a short end with zeros for the missing bits |
| Pairing.TokenDecodes | internal/pairing/token.go:22-87 | The token of every 32-byte secret and supported key decodes to both, whatever white space surrounds it |
| Pairing.OneSpelling | internal/pairing/token.go:46-87 | A token decodes to a secret and key if and only if, trimmed, it is the one token `Encode` makes of them |

## Left out

- Receiver.ChunkReceiver.DrainBuffer: writing to the destination does not fail here; a failed write ends the download like an interruption, which `Transfer` allows at any moment.
- Receiver.ChunkReceiver.ReceiveChunks: the stream of events is finite, and a loop that outlives it ends with an error of its own.
- Receiver.ChunkReceiver.SendChunkRequest: sealing and writing succeed for as long as a budget lasts; a sequence spent on a request that was sealed and then not written is not kept apart, since the loop ends there.
- Transfer.StepKeepsInv: one client asking for one path on one session, so the server's reply to a reused identifier with another path does not occur; a packet is opened and handled in one step, because one goroutine does both.
- Datagrams.BytesAreSafe: the server's error texts are one fixed text; a send the system refuses leaves the client's endpoint as it was, where the code has spent a sequence and ends.
- Progress.AnyRunCanComplete: a possibility, not a promise about a fair network; time limits are events that may or may not happen.
- SessionTable.WhatIsLeftBehind: which paths lead to a directory, and where the temporary archive can stand, does not change during a run.
- SessionTable.ArchivesAreOwned: `os.Remove` and `Close` on a temporary file do not fail here.
- ServerHandlers.Server.CleanupExpired: which sessions are stale is a parameter; access times are not modelled.
- Handshake.HandshakeAgrees: X25519, RSA-PSS, HMAC and SHA-256 are functions with laws, and the random values are arguments; a missing (nil) key is not modelled.
- Secure.Session.Open: AES-GCM is a function with laws; the mutexes are not modelled, each call being one step.
- Archive.RoundTrip: symbolic links, special files, modification times, errors while reading the source, the byte format of tar and gzip, the final rename and the extracted root's own mode.
- Paths.SafeIffStrictlyBelow: lexical paths with `/` only; resolving symbolic links (`resolveDirectory`) is not part of this model.
- ServerCredentials.CredentialsAgree: process kills with a file system that survives, not loss of power; the lock's mutual exclusion is assumed; each file is there whole or not at all, as its exclusive link makes it; staging directories that killed callers leave are not tracked.
- Registry.RegistryIsBounded: the HTTP handler around the registry, and the shape of its replies.
- Pairing.OneSpelling: DER encoding and parsing of keys are parameters, inverse to each other; tokens are strings of characters, so invalid UTF-8 does not occur.
- UTF-8 validity of requested paths is a parameter of the codec.
- Command line, terminal, HTML page, CSRF and host checks, progress reporting, environment files, PEM files and the client's credential store.
