# wake-my-pc: a Dafny model of the daemon's command path

A phone wakes, locks and powers off a PC through a daemon that talks a small
framed protocol over mutual TLS. This project models the part of that daemon
that has to be right: the bytes on the wire, the loop that turns them into
operating-system calls and replies, the keystore every connection shares, the
pairing window that adds a phone, and what all of these do to one file over the
life of a machine. `dafny verify dfyconfig.toml` checks everything.

What a TLS session delivers is the starting point: an in-order byte stream, cut
anywhere, from a peer whose public-key hash (SPKI) is known. Clocks, random
bytes, operating-system outcomes, file-system failures and failed writes are
parameters; what a theorem asks of them is in its `requires` and no more. What
the model fixes about them is under "Left out".

| layer | modules |
|---|---|
| integers, byte strings, `Option`/`Result` | `Bytes`, `Wrappers` |
| postcard wire format (varints as in section 7.6 of DWARF 5, strings as in section 4 of RFC 3629) | `Postcard`, `Utf8` |
| messages and error codes | `Messages`, `ProtocolErrors` |
| envelopes, stream reassembly, nonces | `Envelopes`, `Transport`, `Nonces` |
| records, keystore file, re-authentication window | `Pairings`, `Keystore`, `Reauth` |
| one connection, what it guarantees, and how each request is answered | `SharedState`, `Connection`, `Delivery`, `Requests` |
| many connections over one keystore | `Interleaving` |
| the pairing window, its sampler and its guessing bound | `Handshake`, `Sampling`, `Guessing` |
| the pairing command, and what it leaves behind | `PairingFlow`, `PairingInTime`, `PairingDurability`, `PairingGuessing`, `PhoneNames` |
| local commands, and the file over any history of commands | `Admin`, `Lifecycle` |
| local commands beside a running server | `Alongside` |

Code that changes state step by step is a class or a loop with invariants, proved
equal to a function of the old state (`ServerState`, `NonceSender`,
`NonceReceiver`, `TlsStream`, `PairingHandshake`, `PairCommand`, `FileSystem`;
`Connection.Run`, `Transport.ReadEnvelope`, `PairingFlow.PairCommand.AcceptLoop`
and the rest). The theorems are about those functions, so they are theorems about
the methods.

The main results:

* whatever a client stamps and sends arrives: dispatched once each, in order,
  and answered, for any chunks (`Delivery.EndToEndDelivery`); and for any bytes
  at all, exactly the longest prefix of frames with increasing nonces and
  decodable payloads is dispatched (`Delivery.ReplayGate`); both whatever other
  connections make of the shared keystore and its file between two requests;
* what a connection leaves is its address update and then the effect of each
  request in turn (`Requests.ConnectionTakesEffect`), and what it sends is, for
  each of them, the answer its own handler call, clock and save call for
  (`Requests.RepliesAreCalledFor`);
* any number of connections interleaved at the granularity of single lock
  sections and file operations keep the identity, the authentication time and
  the pin set (`Interleaving.ServerRun`). The keystore file is something memory
  held iff the last rename moved a completely written temporary file
  (`Interleaving.FileIsRememberedIff`), and what memory holds now iff that
  file's snapshot followed the last change (`Interleaving.FileIsLatestIff`). A
  lone connection of the sequential model is one of those interleavings
  (`Interleaving.DispatchIsARun`);
* an adaptive attacker on the network gets into a pairing window for at most
  five of its million possible codes, and that is the best bound there is
  (`PairingGuessing.AtMostFiveCodesPair`, `Guessing.FiveIsAttained`); of the
  equally likely raw values the command may draw, at most five in a million let
  it in (`PairingGuessing.AtMostFiveInAMillionOpen`). The phone with the right
  code gets in before the deadline as long as an attempt is left
  (`PairingInTime.RightCodeInTimePairs`), and nobody after it
  (`PairingInTime.LateTickExpires`);
* over any history of commands one after the other, a revoked key stays out of
  every later server's pin set until a pairing window in which it succeeds
  (`Lifecycle.RevocationHolds`);
* when local commands and a server overlap, what the file pins is decided by
  its last write alone (`Alongside.LastWritePinsIff`): a revocation takes hold
  from the next start iff the last write after it, if any, is neither a
  completed save of a server that started with the key nor the store of a
  command that had read it unrevoked (`Alongside.RevocationSurvivesIff`).
  Updates can be lost but nothing is made up (`Alongside.OverlapKeepsFileSound`).

## Where the code and its documentation differ

The model follows the code.

* `docs/PROTOCOL.md` lines 39, 68 and 137 give unknown tags the code
  `Unsupported` and keep the connection open. The code decodes them as malformed
  (`core/src/protocol/error.rs` lines 82-92) and closes:
  `Messages.UnknownTagIsMalformed`, `Delivery.UnknownTagCloses`.
* `docs/PROTOCOL.md` line 37 answers an unknown version with `VersionMismatch`.
  The code ends the connection on any framing error without a reply
  (`daemon/src/server/connection.rs` line 150): `Delivery.CodesOnTheWire`.
* The closing error frame is stamped with nonce 1 whatever was sent before
  (`daemon/src/server/connection.rs` lines 211-216), so a phone that enforces
  the nonce rule of `docs/PROTOCOL.md` drops it after any reply:
  `Delivery.ClosingErrorIsDroppedIff` says for which bytes sent, and
  `Delivery.ReplayErrorIsDropped` gives two frames that do it.
* `daemon/src/admin.rs` lines 2-3 say a running listener picks up local changes
  on the next accept. The server loads the file once
  (`daemon/src/server/mod.rs` lines 77-96) and notices nothing local commands
  do: `Alongside.RunningServerKeepsPins`. Nor is the change safe in the file:
  each save of the server writes all of its memory
  (`daemon/src/server/state.rs` lines 107-110), and each local command writes
  back all it had read (`daemon/src/pairing_flow.rs` lines 44 and 180), so a
  revocation is undone by the next save of the server
  (`Alongside.RevocationIsUndone`) or by a command that was under way, such as
  a pairing window opened before it (`Alongside.RevocationIsOverwritten`).
  `Alongside.RevocationSurvivesIff` says exactly when it survives. A pairing
  beside a running server needs an address of its own (`--port` or `--bind`,
  `daemon/src/config.rs` lines 33-40; with the configured one its listener does
  not bind, `docs/POST_WORK_FINDINGS.md` line 14, and nothing is stored:
  `Alongside.NoPairingOnTheSameAddress`); then it is undone in the same way
  (`Alongside.PairingIsUndone`, `Alongside.PairingSurvivesIff`).
* `daemon/src/keystore/mod.rs` lines 13-14 promise that a save preserves the
  previous keystore when a write breaks off. That holds of each save by itself
  (`Keystore.SaveIsAtomic`), but the saves of one process share a temporary
  name: one connection's broken write between another's write and rename is
  moved into place (`Interleaving.BrokenWriteIsMoved`).
* `daemon/src/pairing_flow.rs` lines 121-123 say the window stays open after a
  connection-level failure. After a right code whose save or reply failed
  nobody can pair any more, and the command goes on to report failure, though
  the file has the new record iff the save had worked:
  `PairingDurability.PairedLoopIsOver`, `PairingDurability.ReportsSuccessIff`.
* The acknowledgement of a revocation is documented to remove the record
  (`daemon/src/pairings.rs` lines 27-29). Some server run removes a record iff
  one is revoked whose key is still active through another
  (`Interleaving.RemovalIff`); with distinct keys none ever does, because a
  revoked phone cannot connect to acknowledge
  (`Interleaving.NothingIsForgotten`).
* `core/src/protocol/message.rs` lines 88-91 promise a 64-byte cap on the phone
  name. What limits a name is the envelope: it reaches the keystore iff it and
  its encoded code are at most 65523 bytes (`PhoneNames.NameIsStorableIff`), so
  names of up to 65520 bytes are stored whatever the code
  (`PhoneNames.LongNamesAreStored`).
* `Envelope.version` is documented as always version 1 on encode. The encoder
  neither checks it nor refuses an empty payload, which the decoder does:
  `Envelopes.RoundTripIff`.

## Model

| member | source | states |
|---|---|---|
| `Delivery.EndToEndDelivery` | daemon/src/server/connection.rs:82-118 | any requests that fit an envelope, stamped by one nonce sender and arriving in any chunks, are each dispatched once, in order, up to and including the first pairing attempt, whose reply closes; the i-th frame written is the reply to the i-th under nonce i; failing saves and handlers and whatever other connections do to the shared state change nothing of this |
| `Delivery.ReplayGate` | daemon/src/server/connection.rs:91-107 | for any bytes, environment, write failures and interference by other connections, the frames dispatched have increasing nonces from 1 and decodable payloads, are the longest such prefix unless a reply closed or could not be sent, and the connection's operating-system calls follow them one to one |
| `Delivery.GateIsLongestPrefix` | daemon/src/server/connection.rs:91-105 | the loop's frame-by-frame gate passes n frames iff the first n have strictly increasing nonces above the start and all decode |
| `Delivery.ConnectionFinishes` | daemon/src/server/connection.rs:34-119 | every connection of a listed peer, whatever others do to the shared state meanwhile, ends with its replies in order under nonces 1, 2, ..., no frame after a pairing attempt, at most one closing error with its exact code, and an outcome that names why it stopped |
| `Delivery.StepKeepsRunning` | daemon/src/server/connection.rs:83-117 | one turn of the loop keeps the running invariant (answered so far, gate count, nonces, calls, replies) or finishes the connection |
| `Delivery.ServedFinishes` | daemon/src/server/connection.rs:82-118 | the loop over any frames from any state that satisfies the running invariant ends in a finished connection |
| `Delivery.CallsMapInjectively` | daemon/src/server/connection.rs:255-289 | operating-system calls carry strictly increasing request nonces, and each was made for a dispatched request |
| `Delivery.CodesOnTheWire` | daemon/src/server/connection.rs:91-107 | a listed peer is only ever sent NotPaired, RequiresReauth or Internal as a reply and NonceReplay or MalformedFrame as a closing error; a framing error is met with silence |
| `Delivery.OnlyPairCloses` | daemon/src/server/connection.rs:191-204 | of all requests, exactly pairing attempts get a reply that closes the connection |
| `Requests.ClosingCodes` | daemon/src/server/connection.rs:192-204 | a reply closes iff it is an error other than RequiresReauth, Unsupported and Internal |
| `Delivery.RefusedIffReportedExpired` | daemon/src/server/connection.rs:234-298 | Sleep, Lock and PowerOff are refused iff a status request on the same state would report an interval and an expiry already reached; a refusal leaves no trace, anything else makes exactly one call |
| `Requests.CommandByOutcome` | daemon/src/server/connection.rs:255-282 | a Sleep, Lock or PowerOff past the window (in milliseconds, as a number) is refused without a trace; within it its own handler is called, and acknowledged iff that succeeded, else answered Internal |
| `Requests.ProbeByOutcome` | daemon/src/server/connection.rs:283-289 | a probe reports exactly the state the handler returned, or Internal iff it failed |
| `Requests.GateByInterval` | daemon/src/reauth.rs:64-86 | under each configured interval, commands are refused iff it is not Never and the clock has reached last authentication plus 86400000, 604800000 or 2592000000 ms, capped at 2^64-1; a status request reports exactly that |
| `Requests.ConfigByOutcome` | daemon/src/server/connection.rs:300-313 | configuring sets 0, 1, 7 or 30 days and nothing else, saves, and is acknowledged iff the save succeeded |
| `Requests.RevokeAckByOutcome` | daemon/src/server/connection.rs:315-330 | always acknowledged; removes the peer's revoked records and saves iff there were any |
| `Requests.PairIsTurnedDown` | daemon/src/server/connection.rs:246-253 | a pairing attempt on the running server is answered NotPaired and changes nothing |
| `Requests.AuthenticationIsSeen` | daemon/src/admin.rs:64-76 | once a re-authentication has been saved, a server that loads the file reports its time and counts the window from it |
| `Requests.ConnectionTakesEffect` | daemon/src/server/connection.rs:59-118 | the shared state a connection leaves is the address update and then each request's effect in turn, on what the one before and other connections left; reply i is the one request i has there |
| `Requests.RepliesAreCalledFor` | daemon/src/server/connection.rs:228-345 | over a whole connection, the reply sent i-th is the one that request i's handler outcome, clock and save call for on the contents it found |
| `Requests.UnlistedIsTurnedAway` | daemon/src/server/connection.rs:45-57 | a peer all of whose records are revoked, or that has none, is sent Revoked and nothing it sends is read |
| `Delivery.ConfigureThenStatus` | daemon/src/server/connection.rs:300-313 | a configured interval is the one later reported, and it is acknowledged exactly when the keystore file holds it; otherwise the file is as before |
| `Delivery.ForgetsOnlyOwnRevoked` | daemon/src/server/connection.rs:315-330 | acknowledging a revocation removes exactly the peer's own revoked records and no active key |
| `SharedState.ForgettingIsRecordByRecord` | daemon/src/server/connection.rs:320-321 | what is forgotten is decided record by record by key and flag, and order stays |
| `Delivery.StampedPassGate` | core/src/crypto/nonce.rs:32-36 | requests stamped by one sender carry nonces last+1, last+2, ..., decode to themselves and all pass the gate |
| `Delivery.SentAreWritten` | daemon/src/server/connection.rs:171-189 | everything a finished connection wrote is the wire form of its replies and closing error, each within the envelope limits |
| `Delivery.ClientSeesReplies` | daemon/src/server/connection.rs:171-226 | the client parses exactly the replies, the k-th with nonce k, and accepts them all; a closing error after any of them is not accepted |
| `Delivery.ClosingErrorIsDroppedIff` | daemon/src/server/connection.rs:206-226 | the client turns down a frame it is sent iff, in the bytes it sent, some frame fails the gate after at least one passed, no passed one asks to pair, and the connection takes one more write; the frame is then the error for that very frame |
| `Delivery.ReplayErrorIsDropped` | daemon/src/server/connection.rs:91-95 | two requests under nonce 1: the replay error is sent, and dropped |
| `Delivery.NonceNeverRunsOut` | daemon/src/server/connection.rs:176-179 | the send counter's overflow branch is never taken, for any stream |
| `Delivery.OutcomeIsForeseen` | daemon/src/server/connection.rs:82-118 | how many frames are dispatched and how the connection ends is a function of the bytes received, the stream's end and the writes it takes: the gate count, the first pairing attempt, the first failing write |
| `Delivery.UnknownTagCloses` | daemon/src/server/connection.rs:97-105 | a first frame with an unknown tag gets exactly the malformed-frame error and ends the connection, nothing dispatched and nothing called |
| `Transport.ChunkingIndependence` | daemon/src/server/connection.rs:134-169 | for any bytes, valid or not, the frames yielded and the way the stream ends depend only on the concatenation of the chunks |
| `Transport.ReadEnvelope` | daemon/src/server/connection.rs:134-169 | the reading loop returns what a one-shot parse of all pending bytes gives, keeps the rest, terminates, and never buffers more than an unfinished largest frame and one read |
| `Transport.ReadOneEnvelope` | daemon/src/pairing_flow.rs:216-242 | the same for the pairing reader, where a clean end of stream is an error too |
| `Transport.StreamRoundTrip` | core/src/protocol/envelope.rs:65-180 | a stream of encoded envelopes parses to those envelopes followed by whatever the tail parses to |
| `Transport.ParsedIsCanonical` | core/src/protocol/envelope.rs:96-180 | every stream is the re-encoding of the frames parsed from it and an unparsed tail, empty at a clean end |
| `Transport.EndByRemainder` | daemon/src/server/connection.rs:150-164 | a stream ends in the framing error, the broken read, the clean end iff nothing is left over, or the end mid-frame |
| `Transport.DecidedOnBuffer` | daemon/src/server/connection.rs:138-155 | a frame or error decided on buffered bytes is the decision for the whole stream; an undecided buffer is shorter than the largest frame |
| `Transport.NextFrame` | daemon/src/server/connection.rs:138-155 | every frame taken consumes at least 14 bytes |
| `Envelopes.EncodeEnvelope` | core/src/protocol/envelope.rs:65-83 | succeeds iff the payload is at most 65527 bytes, with the exact bytes or the exact error |
| `Envelopes.FrameLayout` | core/src/protocol/envelope.rs:75-81 | every byte of a frame: four length bytes, version, eight nonce bytes, payload; the integers digit by digit, most significant first |
| `Envelopes.FrozenFrame` | core/tests/protocol_kat.rs:216-234 | the frozen 14 bytes of a sleep request under nonce 1 |
| `Envelopes.RoundTripIff` | core/src/protocol/envelope.rs:65-180 | an encoded envelope followed by any bytes decodes to itself and those bytes iff its version is 1 and its payload is not empty |
| `Envelopes.DecodedIsCanonical` | core/src/protocol/envelope.rs:96-180 | any decoded frame re-encodes to exactly the bytes consumed |
| `Envelopes.DecisionIsStable` | core/src/protocol/envelope.rs:9-11 | once a frame or an error is decided, appending bytes only extends the remainder |
| `Envelopes.DecodeCases` | core/src/protocol/envelope.rs:96-180 | exactly which buffers give which outcome; the defensive length-overflow branch is never taken |
| `Postcard.VarintRoundTrip` | core/tests/protocol_kat.rs:8-12 | every value below the capacity of a varint width is read back from its encoding, with what follows left over |
| `Postcard.VarintInRange` | core/tests/protocol_kat.rs:8-12 | no varint reads as a value outside its integer width |
| `Postcard.VarintDigits` | core/tests/protocol_kat.rs:8-12 | byte i of an encoded varint is its i-th digit to base 128, lowest first, with the top bit iff more follow |
| `Postcard.VarintReadIff` | core/tests/protocol_kat.rs:8-12 | exactly which bytes are read as a varint of a width, padded ones included, and the digits and rest they are read as |
| `Postcard.VarintCanonicalIff` | core/tests/protocol_kat.rs:8-12 | a varint read from the wire is the one the encoder writes iff it is one byte or does not end in a zero byte |
| `Postcard.EncodedVarintIsShortest` | core/tests/protocol_kat.rs:8-12 | no encoding of a value is shorter than the encoder's |
| `Postcard.StringRoundTrip` | core/tests/protocol_kat.rs:8-12 | every string is read back from its encoding, with what follows left over |
| `Utf8.TextIff` | core/tests/protocol_kat.rs:8-12 | bytes are accepted as a string iff they are the encoding of some Unicode scalar values |
| `Messages.NamesAreText` | core/src/protocol/message.rs:185-193 | a pairing attempt whose name is no such encoding is refused as undecodable |
| `Messages.ClientPrefixFree` | core/src/protocol/message.rs:165-193 | a client payload followed by n bytes decodes to itself when n is 0 and to the trailing-bytes error n otherwise |
| `Messages.DaemonPrefixFree` | core/src/protocol/message.rs:170-193 | the same for daemon payloads |
| `Messages.ClientRoundTrip` | core/tests/protocol_kat.rs:26-119 | every client frame, the frozen ones among them, decodes back from its bytes |
| `Messages.DaemonRoundTrip` | core/tests/protocol_kat.rs:124-211 | every daemon frame decodes back from its bytes |
| `Messages.DaemonFrameLength` | core/src/protocol/message.rs:122-172 | daemon payloads are 2 to 43 bytes, so a reply always fits |
| `Messages.UnknownTagIsMalformed` | core/src/protocol/error.rs:82-92 | a payload with any tag past the catalogue, in any encoding, padded ones included, is refused, and as MalformedFrame |
| `Messages.FrozenRequests` | core/tests/protocol_kat.rs:44-119 | the literal bytes of every request without a name, under all four intervals, in both directions |
| `Messages.FrozenPairing` | core/tests/protocol_kat.rs:26-41 | the literal bytes of a pairing attempt, in both directions |
| `Messages.FrozenStates` | core/tests/protocol_kat.rs:133-152 | of all five PC states, in both directions |
| `Messages.FrozenErrors` | core/tests/protocol_kat.rs:171-197 | of the first four error codes, in both directions |
| `Messages.FrozenClosingErrors` | core/tests/protocol_kat.rs:171-197 | of the other four |
| `Messages.FrozenReports` | core/tests/protocol_kat.rs:124-130 | of an acknowledgement and of re-authentication reports under all four intervals |
| `Messages.FrozenRevocation` | core/tests/protocol_kat.rs:155-168 | of a revocation of any key |
| `ProtocolErrors.WireCodes` | core/src/protocol/error.rs:82-92 | a peer is told VersionMismatch of a wrong version only, and MalformedFrame of every other error |
| `Nonces.NonceSender.Issue` | core/src/crypto/nonce.rs:32-36 | issues last plus one, or nothing and no change at the maximum |
| `Nonces.NonceReceiver.Accept` | core/src/crypto/nonce.rs:61-70 | accepts and remembers exactly what exceeds the last accepted nonce; a refusal changes nothing |
| `Nonces.AcceptedIsLongestIncreasing` | core/src/crypto/nonce.rs:61-70 | the nonces a receiver accepts are the longest strictly increasing prefix above its start |
| `Connection.Run` | daemon/src/server/connection.rs:34-119 | the whole connection loop equals its specification on the chunks that arrive: outcome, frames written, shared state, file and calls made, with other connections changing the shared state in any way before each request |
| `Connection.ServeFrame` | daemon/src/server/connection.rs:91-117 | gate, decode, dispatch on whatever contents others have left, and reply for one frame change the session exactly as specified |
| `Connection.Dispatch` | daemon/src/server/connection.rs:228-332 | reply, shared contents, file and call log after one request |
| `Connection.RecordAddress` | daemon/src/server/connection.rs:61-77 | the scan for a stale record refines the address update, and saves iff something changed |
| `Connection.WriteFrame` | daemon/src/server/connection.rs:171-189 | sends under the next nonce, or fails on exhaustion with nothing sent, or on a failed write with the nonce spent |
| `Connection.SendErrorAndClose` | daemon/src/server/connection.rs:206-226 | one error frame with nonce 1 if the connection still takes it |
| `Connection.HandlerToResponse` | daemon/src/server/connection.rs:334-345 | success is acknowledged, every handler failure is an internal error to the peer |
| `SharedState.ServerState.Save` | daemon/src/server/state.rs:106-110 | persists the contents held at that moment, or leaves the file as it was |
| `SharedState.AddressUpdateIsTargeted` | daemon/src/server/connection.rs:61-70 | with distinct keys the update moves the peer's record to the new address, touches no other, and reports a change iff there was one |
| `SharedState.SkipsFresh` | daemon/src/server/connection.rs:64-70 | records that are not stale are passed over unchanged |
| `Pairings.PinnedIffActive` | daemon/src/server/listener.rs:77-84 | for any record list, a key is in the pin set iff the pre-flight lookup finds it iff some active record has it |
| `Pairings.FreshRecordFields` | daemon/src/pairings.rs:43-53 | name, key, times, flags and address of a new record, each by value |
| `Reauth.IntervalRoundTripIff` | daemon/src/reauth.rs:40-62 | stored days survive the trip through the wire interval iff they are 0, 1, 7 or 30 |
| `Reauth.IntervalDays` | daemon/src/reauth.rs:40-62 | Never, OneDay, SevenDays and ThirtyDays are 0, 1, 7 and 30 days, both ways; any other number counts as seven |
| `Reauth.WindowInMilliseconds` | daemon/src/reauth.rs:67-86 | expiry and block decision in milliseconds, as numbers, with the cap at 2^64-1 |
| `Keystore.PlaintextRoundTrip` | daemon/src/keystore/mod.rs:104-163 | every keystore contents is read back from its plaintext, whatever bytes follow |
| `Keystore.LoadSaveLoad` | daemon/src/keystore/mod.rs:110-163 | saving whatever was loaded, from either format, and loading it again changes nothing |
| `Keystore.MigrationPreserves` | daemon/src/keystore/mod.rs:111-154 | a format 1 file loads to the same records in order with no address, the same identity and re-authentication inputs, and the same result of every lookup |
| `Keystore.FrozenRecordV1` | daemon/src/pairings.rs:63-74 | the bytes of a format 1 record, field by field |
| `Keystore.FrozenRecord` | daemon/src/pairings.rs:12-38 | the bytes of a record, without an address and with an IPv4 one |
| `Keystore.FrozenV6` | daemon/src/pairings.rs:37-37 | the bytes of an IPv6 address |
| `Keystore.FrozenKeystore` | daemon/src/keystore/mod.rs:159-163 | the plaintext bytes of a whole keystore, its format byte first |
| `Keystore.NewKeystore` | daemon/src/keystore/mod.rs:60-68 | a new keystore has no records, seven days and no authentication |
| `Keystore.UpgradeKeepsLookups` | daemon/src/pairings.rs:76-88 | after migration every lookup finds the upgrade of the first active format 1 record with that key, or nothing iff there is none |
| `Keystore.Save` | daemon/src/keystore/mod.rs:158-176 | encode, encrypt, write aside, rename: the new disk and the result under every failure |
| `Keystore.Load` | daemon/src/keystore/mod.rs:95-131 | absent, unreadable, undecryptable, undecodable, wrong format, or the contents |
| `Keystore.SaveIsAtomic` | daemon/src/keystore/mod.rs:167-175 | a save that reports success is what the next load returns; one that reports failure leaves the keystore file untouched |
| `Keystore.SaveByFault` | daemon/src/keystore/mod.rs:158-176 | a save succeeds iff encryption, write and rename do; result, file and temporary file in every case |
| `Keystore.LoadByFile` | daemon/src/keystore/mod.rs:95-128 | only an absent file counts as no keystore; unreadable, undecryptable, undecodable and foreign-format files are each their own error |
| `Interleaving.ServerRun` | daemon/src/server/state.rs:90-110 | under any interleaving of any connections and any failing file operations: identity and authentication time fixed, active keys fixed in order, exactly the acknowledged revoked records gone, the file an image, whole or broken off, of contents memory held, no admitted peer turned away by the pre-flight check |
| `Interleaving.LastRenameDecides` | daemon/src/keystore/mod.rs:171-173 | the keystore file is what the last rename moved, or what was there |
| `Interleaving.FileIsRememberedIff` | daemon/src/keystore/mod.rs:167-173 | the file holds contents that memory held iff the last rename, if any, moved a temporary file whose last write was completed |
| `Interleaving.FileIsLatestIff` | daemon/src/server/state.rs:106-110 | however saves overlap, the file holds the latest contents iff that file was completed and its snapshot followed the last change (or happened to equal the latest); without a rename, it is the latest version iff nothing changed |
| `Interleaving.BrokenWriteIsMoved` | daemon/src/keystore/mod.rs:171-173 | from any state with two connections in their loops, a broken write of one between the write and the rename of the other leaves a keystore file that holds nothing memory held |
| `Interleaving.ServerInvariant` | daemon/src/server/connection.rs:45-77 | the invariant behind it holds after every list of steps |
| `Interleaving.RemovalIff` | daemon/src/server/connection.rs:315-330 | some run of the server removes a record iff some record is revoked whose key also belongs to an active record |
| `Interleaving.PinnedPeersConnect` | daemon/src/server/connection.rs:34-77 | every pinned peer reaches its loop, with its address recorded and saved and nothing else changed |
| `Interleaving.NothingIsForgotten` | daemon/src/pairings.rs:27-30 | in particular, with distinct keys no server run ever removes a record |
| `Interleaving.FileIsMemory` | daemon/src/server/state.rs:106-110 | in particular, if changes and saves do not overlap and no file operation fails, the file of an idle server equals its memory |
| `Interleaving.OrderlyRunsStaySynced` | daemon/src/server/state.rs:106-110 | what each step of such a run keeps, including in the middle of a save |
| `Interleaving.OverlapLosesAnUpdate` | daemon/src/server/state.rs:106-110 | without that discipline, from any state with two connections in their loops, two overlapping changes end with an idle pair and a file behind memory, every file operation having succeeded |
| `Interleaving.DispatchIsARun` | daemon/src/server/connection.rs:228-332 | serving a frame alone is one of the interleavings: same memory, same file, back in the loop |
| `Interleaving.AddressSectionIsARun` | daemon/src/server/connection.rs:59-77 | so is the address section, under every save failure |
| `Handshake.WindowConservation` | core/src/crypto/pairing.rs:151-256 | over any calls: windows opened are windows succeeded, exhausted, expired, abandoned or still open, and an open one counts its misses below the cap |
| `Handshake.RightCodeWinsIff` | core/src/crypto/pairing.rs:174-236 | after any wrong offers in time, the right code pairs the phone that offers it iff the budget is not used up; otherwise it finds no window |
| `Handshake.TickByTime` | core/src/crypto/pairing.rs:238-250 | before the deadline a tick does nothing, from then on it closes the window as expired, once |
| `Handshake.OfferByTimeAndCode` | core/src/crypto/pairing.rs:181-235 | new state and answer of an offer by deadline, code, range and attempts made, in numbers |
| `Handshake.StartByDraws` | core/src/crypto/pairing.rs:151-163 | an idle handshake opens with the sampled code until now plus the given time, capped; with a failed source it stays idle; any other stays as it is |
| `Handshake.NoCodeFromAFailedDraw` | core/src/crypto/pairing.rs:271-273 | a failing source yields no code, whatever was rejected before |
| `Handshake.RandomPairingCode` | core/src/crypto/pairing.rs:263-279 | the loop returns the first accepted draw reduced, or the source's failure |
| `Handshake.PairingHandshake.Start` | core/src/crypto/pairing.rs:151-163 | new state and answer of opening a window, in every state and on every draw |
| `Handshake.PairingHandshake.AcceptPair` | core/src/crypto/pairing.rs:174-236 | new state and answer of an offered code |
| `Handshake.PairingHandshake.Tick` | core/src/crypto/pairing.rs:240-250 | new state and answer of the expiry check |
| `Handshake.PairingHandshake.Reset` | core/src/crypto/pairing.rs:254-256 | back to idle |
| `Sampling.LargestMultiple` | core/src/crypto/pairing.rs:264-270 | the threshold is the largest multiple of the modulus not above the bound, for any modulus and bound |
| `Sampling.PreimageCount` | core/src/crypto/pairing.rs:263-279 | any set of residues has exactly q raw values each below q times the modulus |
| `Sampling.SamplerIsUniform` | core/src/crypto/pairing.rs:263-279 | every six-digit code comes from exactly 4294 accepted raw values |
| `Sampling.LeBijection` | core/src/crypto/pairing.rs:274-274 | four random bytes and a raw value determine each other |
| `Sampling.SampledIsFirstAccepted` | core/src/crypto/pairing.rs:271-278 | the code comes from the first draw below the threshold |
| `Guessing.AtMostFiveSecrets` | core/src/crypto/pairing.rs:10-15 | any adaptive strategy over guesses, times, ticks and resets, of any length, succeeds against at most five secrets |
| `Guessing.AtMostFiveInAMillion` | core/src/crypto/pairing.rs:10-15 | as a share of the sampler's equally likely raw values, at most five in a million |
| `Guessing.FiveIsAttained` | core/src/crypto/pairing.rs:205-225 | some strategy succeeds against exactly five, so the bound is tight |
| `Guessing.UnguessedLooksTheSame` | core/src/crypto/pairing.rs:205-225 | until its own code is offered, a window answers as one whose code nothing matches |
| `Guessing.BudgetBoundsOffers` | core/src/crypto/pairing.rs:205-224 | a window never matched takes at most five offers, and counts them |
| `PairingGuessing.AtMostFiveCodesPair` | daemon/src/pairing_flow.rs:88-203 | for the whole pairing command against a network attacker who chooses each connection after every earlier reply, with any save and send failures: at most five codes ever pair |
| `PairingGuessing.PairsOnBlindTraffic` | daemon/src/pairing_flow.rs:187-199 | an attack that pairs would have paired with the traffic it sends when no code matches: replies leak nothing before success |
| `PairingGuessing.AtMostFiveInAMillionOpen` | core/src/crypto/pairing.rs:10-15 | for the whole command from its random draws on, whatever was rejected first: at most five in a million of the accepted raw values open a window the attacker gets into |
| `PairingFlow.PairCommand.HandlePairAttempt` | daemon/src/pairing_flow.rs:124-203 | one connection's effect on window, records, file and replies, for any bytes it sends |
| `PairingFlow.PairCommand.OfferCode` | daemon/src/pairing_flow.rs:163-202 | replace, persist, then acknowledge, and what each failure leaves |
| `PairingFlow.PairCommand.AcceptLoop` | daemon/src/pairing_flow.rs:88-118 | the accept loop over any arrivals equals its specification |
| `PairingFlow.Run` | daemon/src/pairing_flow.rs:40-119 | every way starting can fail, in order and without touching the file; else the window served to its end: the result and the keystore file |
| `PairingDurability.PairOnceDurability` | daemon/src/pairing_flow.rs:88-203 | any run adds at most one record, keeps other phones' records in order, and acknowledges at most once, last, with the file already loading to the new contents; without success nothing changes |
| `PairingDurability.LoopKeeps` | daemon/src/pairing_flow.rs:88-118 | the loop invariant behind it, from any state of the window |
| `PairingInTime.RightCodeInTimePairs` | daemon/src/pairing_flow.rs:88-203 | in an open window, after any arrivals in time that leave an attempt, the phone with the right code, if its save and reply work, ends the command as paired: acknowledged under its nonce, its record by value last in the file |
| `PairingInTime.EarlyArrivals` | daemon/src/pairing_flow.rs:88-118 | such arrivals cost one attempt each iff they offer a code, and leave the window open and records and file as they were |
| `PairingInTime.LateTickExpires` | daemon/src/pairing_flow.rs:89-101 | a tick at or after the deadline, or the command's own deadline, ends it as expired, a failing listener as failed, with records and file as they were |
| `PairingInTime.LastAttemptCloses` | daemon/src/pairing_flow.rs:113-115 | the last wrong attempt or an offer after the deadline ends it as closed, with records and file as they were |
| `PairingInTime.OpensForFiveMinutes` | daemon/src/pairing_flow.rs:43-66 | the command starts with five attempts and 300000 ms, over the records it loaded or a new keystore |
| `PairingInTime.OpensIff` | daemon/src/pairing_flow.rs:40-82 | it starts iff all it needs is there |
| `PairingInTime.OtherFramesAreRefused` | daemon/src/pairing_flow.rs:138-161 | a first frame that is no offer is answered Unsupported, or MalformedFrame if undecodable, and costs no attempt |
| `PairingInTime.SilentFailures` | daemon/src/pairing_flow.rs:130-133 | a connection without a key or a whole frame is answered nothing and changes nothing |
| `PairingDurability.ReportsSuccessIff` | daemon/src/pairing_flow.rs:108-117 | when a phone got through, the command reports success iff its record was saved and its reply sent; it reports failure over a file with the new record iff the save worked and the reply did not |
| `PairingDurability.PairedLoopIsOver` | daemon/src/pairing_flow.rs:121-123 | after that no arrival changes the records or the file or is told it is paired, and the window does not close by itself |
| `PairingDurability.ReplacedPins` | daemon/src/pairing_flow.rs:174-177 | pairing pins exactly the new key in addition, keeps keys distinct, and leaves one record for the phone |
| `PairingDurability.ReplacingIsRecordByRecord` | daemon/src/pairing_flow.rs:174-176 | what stays beside a new record is decided record by record by key, and order stays |
| `PairingDurability.RefusalTellsNothing` | daemon/src/pairing_flow.rs:187-199 | wrong code, expiry, exhausted budget and no window at all are answered identically, and change no record and no file |
| `PhoneNames.NameIsStorableIff` | core/src/protocol/message.rs:88-91 | in an open window, some pairing connection gets a name into the contents and the save iff the name and the encoded right code take at most 65523 bytes |
| `PhoneNames.FitsIff` | core/src/protocol/envelope.rs:65-74 | that is exactly when the pairing attempt fits one envelope |
| `PhoneNames.LongNamesAreStored` | core/src/protocol/message.rs:88-91 | names of every length up to 65520 bytes are stored, for every code |
| `Admin.Revoke` | daemon/src/admin.rs:42-59 | marks every record of that name and saves, or fails and leaves the file |
| `Admin.UninstallRevokeBroadcast` | daemon/src/admin.rs:99-108 | marks every record and saves |
| `Admin.ReauthNow` | daemon/src/admin.rs:64-76 | sets the authentication time and saves |
| `Admin.MarkLoop` | daemon/src/admin.rs:45-51 | the in-place marking loop marks exactly the matching records and reports whether there were any |
| `Admin.RevokedFields` | daemon/src/admin.rs:46-49 | revoking sets both flags of a record and nothing else |
| `Admin.EditsByRecord` | daemon/src/admin.rs:42-108 | which records each command changes, when it fails, and that re-authentication sets the time and nothing else |
| `Admin.EditByOutcome` | daemon/src/admin.rs:173-183 | a command succeeds iff it loads a keystore, applies and saves; a missing keystore, a failed load, an unknown name and a failed save are told apart, and leave the file |
| `Admin.MarkingUnpins` | daemon/src/admin.rs:42-51 | a key is still pinned after marking iff one of its active records was not marked |
| `Admin.MarkingPinsLess` | daemon/src/admin.rs:42-51 | marking pins nothing new |
| `Lifecycle.FreshMachine` | daemon/src/keystore/mod.rs:158-176 | from no file, after any commands with any failures in which no server moves a broken write into place, the file is absent or loads to distinct keys and one of the four intervals |
| `Lifecycle.FileStaysProper` | daemon/src/keystore/mod.rs:95-176 | the same from any file that is proper to begin with |
| `Lifecycle.CommandEvolves` | daemon/src/admin.rs:42-108 | one command, short of a server moving a broken write into place, keeps the file proper and its identity, and pins no key but one that succeeded in a pairing window |
| `Lifecycle.RevocationHolds` | daemon/src/admin.rs:42-59 | with commands and server runs one after the other, none moving a broken write into place: once revoking a phone has been saved, its key is in no pin set of any later server run until a pairing window in which that key succeeds |
| `Lifecycle.ShutOutPersists` | daemon/src/server/listener.rs:77-84 | a key that is not pinned stays out through any commands in which it does not pair |
| `Lifecycle.IdentityIsPermanent` | daemon/src/pairing_flow.rs:43-54 | once there is a keystore no command changes the device identity |
| `Alongside.RunningServerKeepsPins` | daemon/src/server/mod.rs:77-96 | whatever local commands, overlapping in any way, do to the file meanwhile, a running server's memory and connections are those of the same run without them: every key active at its start stays pinned |
| `Alongside.LastWriteDecides` | daemon/src/server/state.rs:106-110 | under any overlap of local commands and server, the file is exactly what the last write put there, the server's temporary file or what a command made of what it had read, or what was there before |
| `Alongside.LastWritePinsIff` | daemon/src/pairing_flow.rs:174-180 | whether the file pins a key after any overlap: if the last write is the server's, iff it was complete and the server started with the key; if a command's, iff it pairs the key or had read an active record of it that it does not revoke; with no write, iff it did before |
| `Alongside.RevocationSurvivesIff` | daemon/src/admin.rs:42-59 | a key that is out of every later server stays so, through any further overlap of commands and server, iff the last write in it, if any, does not pin the key in that sense |
| `Alongside.PairingSurvivesIff` | daemon/src/pairing_flow.rs:174-180 | a phone the file knows is known at the next start, after any further overlap, iff the last write, if any, pins it |
| `Alongside.RevocationIsUndone` | daemon/src/server/connection.rs:300-312 | whichever phone is connected and whichever active phone is then revoked, one saved interval change reinstates the revoked one for every later server |
| `Alongside.RevocationIsOverwritten` | daemon/src/pairing_flow.rs:43-54 | a command that had read the file before a revocation, a pairing or any that does not revoke the phone too, reinstates it when it stores, with no server step at all |
| `Alongside.PairingIsUndone` | daemon/src/server/connection.rs:300-312 | a phone paired at an address of its own beside a server is in the file, and unknown to every later server after one saved interval change |
| `Alongside.NoPairingOnTheSameAddress` | daemon/src/pairing_flow.rs:79-81 | without an address of its own a pairing stores nothing |
| `Alongside.ShutOutBeside` | daemon/src/admin.rs:42-59 | through any overlap, a key that neither the file nor a command under way pins stays out until the server renames a completed save or a pairing of that key is actually stored |
| `Alongside.OverlapKeepsFileSound` | daemon/src/admin.rs:42-108 | through any overlap the file keeps the identity, distinct keys and a known interval, and pins only keys pinned at the start or stored by a pairing that could bind and save |
| `Lifecycle.ServeKeepsProper` | daemon/src/server/mod.rs:77-107 | the file a server run leaves is as proper as the one it found, with the same identity and pins |
| `Lifecycle.ServeLeavesItsFile` | daemon/src/server/mod.rs:77-107 | what the next load finds after a server run is what its last rename moved |
| `Lifecycle.EditIsCarriedOut` | daemon/src/admin.rs:42-108 | a local edit that applies and is saved is what the next load finds |
| `Lifecycle.PairingIsCarriedOut` | daemon/src/pairing_flow.rs:108-117 | after a pairing command that reports success, the next load finds the records it accepted |

## Left out

- Interleaving.ServerRun: takes each write of the temporary file as one step that is completed, fails before it or breaks off; two writes of that one name at the very same time are up to the platform.
- Interleaving.DispatchIsARun: covers the requests that touch the keystore; the others change neither memory nor file and take no step there.
- Lifecycle.RevocationHolds: commands run one after the other; when they overlap the claim is false, and `Alongside` has the inputs and the exact condition.
- Alongside.LastWritePinsIff: a local command's own write and rename are one step, since its temporary file is its own; two servers on one file are not modelled.
- Connection.Run: other connections change the shared state between two requests; what they do between the lock sections of one request is modelled on values in `Interleaving`, without the lock itself or the reference-counted handles.
- Connection.SendErrorAndClose: a frame is written whole or not at all; a partly written last frame is not modelled.
- Handshake.RandomPairingCode: the random source is a finite list of draws, and running out of it counts as its failure.
- PairingFlow.Run: whether the data directory, the identity and the listener come up is decided by the environment; the arrivals are a finite prefix of what a window may see.
- TLS, X.509, SHA-256 and Ed25519: the peer's key hash and an in-order byte stream are inputs.
- The platform keystore encryption: a pair of functions, where decryption undoes encryption when a theorem says so.
- The operating-system handlers: outcomes come from the environment, calls go to a log.
- Tokio scheduling, sockets, the endless listener loop, shutdown and the Windows service.
- IPv6 flow label and scope of the cached address, which the keystore encoding drops as well.
- The text inside encoding and decoding errors: one failure value each.
- The credential prompt stub, the network probing of the uninstall broadcast, printing, logging, configuration and the command line.
- The phone applications, the desktop interface and the language bindings.
