# A verified model of redfog

redfog is a Moonlight/GameStream server. This project models the parts of it that carry protocol
logic, arithmetic and shared state, and proves what they promise. `dafny verify dfyconfig.toml`
checks everything.

| files | what they model |
|---|---|
| `Gf256`, `Fec`, `Crypto`, `Audio`, `AudioRun`, `AudioReceiver` | the audio packetizer: RTP numbering, encryption, Reed-Solomon parity, and a client that loses packets |
| `ControlWire`, `InputEvents`, `ControlServer`, `ControlLoop`, `ControlDelivery`, `ControlContact` | the ENet control channel: wire format, the key registry and the service loop running concurrently |
| `Resolution`, `PairedStore`, `Pairing`, `ClientManagers`, `PairingRuns`, `PairingClient`, `PairedRuns`, `PairingSteps` | the pairing handshake and the store of paired devices |
| `Captures`, `EncoderLoop`, `EncoderThreads`, `FramePusher` | ownership of captured file descriptors, keyframe cadence, and the pipeline's buffer cache |
| `ShellQuote`, `SessionTable` | the broker's command quoting and its session table |
| `Rtsp`, `LoginFrames` | request-line rewriting, and the login screen's framing |
| `Bytes` | fixed-width integers and their encodings |

Objects that the program updates in place are classes whose methods are proved equal to a step
function on values; the theorems are about those step functions, over runs of any length.
Concurrent parts are state machines whose actions are the pieces between lock releases or await
points, in every interleaving. Ciphers, hashes, signatures, certificates, JSON, lossy UTF-8 and the
RTSP parser are function values under stated laws, and where the laws are not obviously satisfiable
a lemma exhibits functions that satisfy them.

What the proofs found, where code and expectation differ:

- A scroll event whose body has exactly one byte makes the input decoder panic, which ends the
  control thread; nothing else does (`InputEvents.PanicsExactly`).
- The length field of an encrypted control message is never read. Wrapped and plain parsing agree
  exactly when that field covers what the message type needs without overrunning the message, or the
  payload is too short either way (`ControlWire.WrapperTransparent`).
- Two concurrent registrations of one key may be inserted against the order of their epochs. A
  registered key carries its latest draw exactly when no earlier one was inserted after it
  (`ControlServer.LatestDrawExactly`); displacement of the old registration holds in any order
  (`ControlServer.InsertSupersedes`).
- Pairing step 3 stores the client's hash before it looks for its own secret, so a refused step 3
  counts like an answered one. Which of the two it is depends only on whether a challenge has drawn a
  secret and whether the server can sign it (`PairingRuns.AcceptedResponseAnswered`). A client can use
  this on purpose only against a server that cannot sign (`PairingClient.UnsignedStepStillCounts`);
  otherwise it would have to guess the draw (`PairingClient.RefusedStepStillCounts`).
- Migrating a legacy pairing file depends on hash-map iteration order exactly when the file gives one
  fingerprint two different settings (`PairedStore.MigrationOrder`).
- A keyframe request made when a keyframe is due anyway is answered and then answered again on the
  next picture (`EncoderLoop.RequestUsedUp`).
- `next_frame`'s documentation says a timeout changes nothing for its callers
  (`crates/kwin-capture/src/pipewire_capture.rs` 486-491). The frame pusher's loop ends on it
  (`crates/redfog-core/src/lib.rs` 901), and the model follows the code.
- The frame pusher panics on a capture format other than BGRx and BGRA, though the capture also offers
  RGBA, and the descriptor it took is then never closed (`FramePusher.PusherLeaksExactly`). Nor is
  one whose import fails before the driver is asked, as when `vkCreateImage` fails
  (`EncoderLoop.NoDescriptorLeaks`).
- A session is dropped from the broker's table though nobody ended it exactly when its id is inserted
  again or a check of an earlier session of that id fails (`SessionTable.TrackedExactly`). Ids restart
  at zero in each server process, so both can happen.
- How an RTSP stream is split into reads can matter when the parser decides before the request line
  ends (`Rtsp.ReadsCanMatter`); `Rtsp.ReadsDoNotMatter` and `Rtsp.StableRobust` say exactly when.
- The login protocol cuts a payload's length to 32 bits; reading back works exactly below 2^32 bytes
  (`LoginFrames.RoundTrip`).

## Model

The results come first. From `Gf256.MulAssoc` on follow what they rest on: lemmas on the way, laws shown
consistent, and the objects' methods, each proved equal to a step of the model.

| member | source | states |
|---|---|---|
| Fec.ColumnRecovered | crates/redfog-moonlight/src/audio.rs:138-158 | any four of the six values at one byte position give back all four data values |
| Fec.ShardsRecovered | crates/redfog-moonlight/src/audio.rs:138-158 | any four of the six shards give back all four data shards, for every length and content |
| Crypto.EcbRoundTrip | crates/redfog-moonlight/src/crypto.rs:52-79 | decryption inverts encryption on all whole-block data and keys |
| Crypto.CbcRoundTrip | crates/redfog-moonlight/src/crypto.rs:141-152 | an independent decryptor and unpadder gets every plaintext back |
| AudioRun.SentClosed | crates/redfog-moonlight/src/audio.rs:107-178 | for unbounded runs through wraparound: the n-th data packet carries n mod 65536; parity follows exactly each fourth of equal lengths, names the group's first number and timestamp, carries base+4 and base+5, and never advances the counter |
| AudioRun.ParitySentExactly | crates/redfog-moonlight/src/audio.rs:107-147 | over whole runs, parity is sent exactly after every fourth frame whose group's four payloads have one length |
| AudioReceiver.EncryptedRun | crates/redfog-moonlight/src/audio.rs:84-102 | over whole runs, each frame is encrypted under exactly the number its packet carries |
| AudioReceiver.EncryptedPackets | crates/redfog-moonlight/src/audio.rs:84-129 | over whole runs, the packets emitted call by call are those of the encrypted frames |
| AudioReceiver.HaveDelivered | crates/redfog-moonlight/src/audio.rs:138-178 | from headers alone a client sorts any delivered packets, reordered and repeated, into the right shards |
| AudioReceiver.GroupPlaysBack | crates/redfog-moonlight/src/audio.rs:97-158 | end to end: a client that computes its own initialisation vectors and loses at most two of a group's six packets plays back all four frames exactly, for any run, key and key id |
| ControlWire.ParseWrapped | crates/redfog-moonlight/src/control.rs:487-513 | parsing a wrapped message parses the whole of what was wrapped, whatever trails |
| ControlWire.WrapperTransparent | crates/redfog-moonlight/src/control.rs:487-576 | wrapped and plain parsing agree if and only if the inner length field is usable; always when it is exact |
| ControlWire.KeysThatParse | crates/redfog-moonlight/src/control.rs:458-469 | a plain message parses alike under all keys, an encrypted one under at most one |
| InputEvents.DecodeInvertsEncode | crates/redfog-moonlight/src/control.rs:607-733 | the decoder recovers every mouse, touch and gamepad event: every i16, every 32-bit button mask, under both gamepad types |
| InputEvents.KeysDecode | crates/redfog-moonlight/src/control.rs:615-616 | key presses and releases, by the second byte of the body and the key table |
| InputEvents.PanicsExactly | crates/redfog-moonlight/src/control.rs:640-651 | the decoder panics if and only if a scroll event has a one-byte body |
| ControlServer.NoReentry | crates/redfog-moonlight/src/control.rs:179-189 | in every interleaving, until the 64-bit counter wraps, no key and epoch re-enter the registry once they left |
| ControlServer.InsertSupersedes | crates/redfog-moonlight/src/control.rs:172-182 | every registration of a key displaces the one before it |
| ControlServer.LatestDrawExactly | crates/redfog-moonlight/src/control.rs:179-182 | over all runs, a registered key carries its latest draw if and only if that draw was inserted and no earlier draw of the key after it |
| ControlServer.EarlierDrawCanWin | crates/redfog-moonlight/src/control.rs:179-182 | a run in which the later draw is inserted first and lost |
| ControlServer.SweepExactly | crates/redfog-moonlight/src/control.rs:322-331 | a sweep frees exactly the matched slots whose pair is not in the snapshot |
| ControlServer.SurvivorsAreInSnapshot | crates/redfog-moonlight/src/control.rs:315-331 | after every sweep of every run each surviving matched peer's pair is in that tick's snapshot |
| ControlServer.TimeOutExactly | crates/redfog-moonlight/src/control.rs:339-346 | exactly the slots unmatched for more than ten seconds are given up |
| ControlServer.SupersededPeersGo | crates/redfog-moonlight/src/control.rs:315-331 | a registration superseded or forgotten before a snapshot has no peer after the sweep that follows, nor ever again |
| ControlServer.BracketsAlways | crates/redfog-moonlight/src/control.rs:315-385 | over every run the callbacks about a connection are one bracket for one key: connected, events, at most one disconnected, then nothing |
| ControlServer.LostPeersAreReported | crates/redfog-moonlight/src/control.rs:323-357 | a matched connection no longer served has been reported disconnected |
| ControlServer.ConnectedWasAuthenticated | crates/redfog-moonlight/src/control.rs:363-369 | each connected callback was caused by an encrypted message that authenticates under its key, registered in that tick's snapshot |
| ControlServer.ChoiceIsUnique | crates/redfog-moonlight/src/control.rs:363-372 | the key a message picks does not depend on the order of the search |
| ControlServer.HonestClientMatches | crates/redfog-moonlight/src/control.rs:363-372 | a message wrapped under a registered key, whatever trails it, is encrypted and is matched to that key |
| ControlContact.ClientIsHeard | crates/redfog-moonlight/src/control.rs:315-372 | over every run, a client that connects and whose first word in a later tick is a wrapped event, keyframe request or loss report under a key of that snapshot is matched to that key and epoch, and exactly its connection and that word are reported |
| ControlContact.SomeClientIsHeard | crates/redfog-moonlight/src/control.rs:179-372 | from the start, for every key and encodable event, there is such a run, beginning with the registration |
| ControlContact.FirstMessage | crates/redfog-moonlight/src/control.rs:363-370 | what the first wrapped message of an unmatched peer changes, exactly |
| ControlDelivery.EventsArrive | crates/redfog-moonlight/src/control.rs:421-446 | every encodable event a matched client sends reaches the handler once, unchanged, under its key |
| ControlDelivery.RequestsArrive | crates/redfog-moonlight/src/control.rs:421-446 | keyframe requests of both types and loss reports arrive likewise |
| Resolution.KeyInjective | crates/redfog-moonlight/src/clients.rs:78-80 | different resolutions never share a key |
| Resolution.ParseInvertsKey | crates/redfog-moonlight/src/pairing.rs:827-838 | parsing a printed resolution gives it back exactly when neither side is zero |
| Resolution.ParseResolutionExactly | crates/redfog-moonlight/src/pairing.rs:827-839 | every string: split at its first x, refused for want of one, for a side that is no number, and for a zero side |
| Resolution.NumberForms | crates/redfog-moonlight/src/pairing.rs:831 | which strings are 32-bit numbers: leading plus and zeros allowed, nothing but digits after |
| Resolution.ParseModeFields | crates/redfog-moonlight/src/pairing.rs:522-547 | a mode of three or more fields is read from the first three, or is the default when one is no number |
| Resolution.ParseModeShort | crates/redfog-moonlight/src/pairing.rs:522-529 | an absent mode or one of fewer fields is the default |
| Resolution.ModeIsEven | crates/redfog-moonlight/src/pairing.rs:533-546 | both sides are even, whatever the mode |
| Resolution.ParseModeOfPrinted | crates/redfog-moonlight/src/pairing.rs:522-547 | a printed mode is read with both sides rounded down to even, further fields ignored |
| PairedStore.MigrateKeys | crates/redfog-moonlight/src/clients.rs:232-245 | exactly the fingerprints of the file are paired afterwards |
| PairedStore.MigrateLast | crates/redfog-moonlight/src/clients.rs:237-243 | of entries that share a fingerprint the last in the order decides, and its scales are carried over |
| PairedStore.MigrationOrder | crates/redfog-moonlight/src/clients.rs:232-245 | the outcome is independent of iteration order if and only if no fingerprint has two different settings |
| PairedStore.LoadReads | crates/redfog-moonlight/src/clients.rs:202-245 | opening any file: the current shape gives its store; else the fingerprints are exactly those legacy entries name, each with the scales of an entry naming it; else nothing is paired |
| PairedStore.ResolveExactly | crates/redfog-moonlight/src/clients.rs:247-267 | a prefix resolves to a key exactly when it is that key or, being no key itself, a prefix of no other |
| PairingRuns.PairingSound | crates/redfog-moonlight/src/clients.rs:541-570 | when step 5 accepts, since the client's last start a PIN, then a challenge, and a response were received; the latest response, decrypted under the first 16 bytes of the hash of salt and PIN, is the hash over the latest challenge, the certificate's signature and the revealed secret; and the signature verifies |
| PairingRuns.ResponseAnsweredExactly | crates/redfog-moonlight/src/clients.rs:517-532 | over all runs, step 3 of a client with a key is refused for want of a secret if and only if no challenge drew one since its start, else carries the latest secret signed, or is refused because the server cannot sign |
| PairingRuns.AcceptedResponseAnswered | crates/redfog-moonlight/src/clients.rs:517-588 | whenever step 5 accepts, the response it accepts on was answered or refused by exactly that rule |
| PairingRuns.PairedExactly | crates/redfog-moonlight/src/clients.rs:566-585 | a fingerprint is paired if and only if it was loaded or an accepted step 5 paired it |
| PairingRuns.DiskAlwaysAgrees | crates/redfog-moonlight/src/clients.rs:278-302 | after every call the file, represented by what it decodes to, decodes to the state in memory in any order, so reloading changes nothing |
| PairingClient.HonestClientPairs | crates/redfog-moonlight/src/clients.rs:446-588 | for every PIN, salt and draw, with other clients and settings in between, a client that derives its own key from salt and PIN passes both sides' checks and is paired |
| PairingClient.OtherPinExactly | crates/redfog-moonlight/src/clients.rs:541-570 | a client that follows the steps under a PIN of its own is paired if and only if its commitment decrypts, under the submitted PIN's key, to the hash expected |
| PairingClient.OtherPinIsRefused | crates/redfog-moonlight/src/clients.rs:541-565 | under a lawful suite, every client whose PIN ends differently from the submitted one is refused at step 5 |
| PairingSteps.StepFiveExactly | crates/redfog-moonlight/src/clients.rs:541-588 | step 5 accepts exactly if every value is there, the hash matches and the signature verifies; the record, field by field, is then on disk, and otherwise nothing changes |
| PairingClient.RefusedStepStillCounts | crates/redfog-moonlight/src/clients.rs:524-526 | a run in which step 3 is refused before any draw and step 5 accepts, the draw being guessed |
| PairingClient.UnsignedStepStillCounts | crates/redfog-moonlight/src/clients.rs:524-528 | a run a client can make: a server that cannot sign refuses step 3 and pairs at step 5 |
| PairedRuns.KeysNeverShrink | crates/redfog-moonlight/src/clients.rs:575-585 | no run, restarts included, unpairs a device |
| PairedRuns.SeenAlways | crates/redfog-moonlight/src/clients.rs:433-442 | the last resolution seen is always among those seen |
| PairedRuns.ScaleFollowsHistory | crates/redfog-moonlight/src/clients.rs:351-398 | a session's scale is the value last set for exactly its resolution, else the last default, counting settings made while pending |
| PairingSteps.PairedSettingExactly | crates/redfog-moonlight/src/clients.rs:386-422 | a setting for a paired device reaches the one key its fingerprint can mean, changes that field alone, and is refused without effect exactly when no key, or several, begin with it |
| EncoderLoop.NoDescriptorLeaks | crates/kwin-capture/src/nvenc_session.rs:501-627 | over every run no descriptor is disposed of twice or while queued; once the capture is dropped the channel is empty, and each descriptor was closed or handed over exactly once if and only if no import failed before its driver was asked |
| EncoderLoop.PollTakesFrame | crates/kwin-capture/src/nvenc_session.rs:501-627 | over every run, the first frame of the channel goes on to be encoded if and only if a client is connected, it is a DMA buffer of the encoder's size, and its buffer is known or can be imported; an unwanted one is closed and nothing else changes |
| EncoderLoop.WatchedIsEncoded | crates/kwin-capture/src/nvenc_session.rs:501-698 | over every run, each such frame becomes exactly one picture if encoding succeeds, of the session at hand and numbered by it, whatever other threads do in between |
| EncoderLoop.ChannelInOrder | crates/kwin-capture/src/pipewire_capture.rs:263-290 | over every run, the channel holds exactly the frames captured and not yet taken, in order, each with the format negotiated at its capture |
| EncoderLoop.SettingsFollowRequests | crates/kwin-capture/src/nvenc_session.rs:286-288 | over every run, the settings in force or waiting to be taken are those last requested |
| EncoderLoop.SessionsFollowRequests | crates/kwin-capture/src/nvenc_session.rs:343-357 | a session that starts with nothing waiting has the codec last requested and starts at frame zero with nothing imported |
| EncoderLoop.CadenceAlways | crates/kwin-capture/src/nvenc_session.rs:629-698 | the first picture of each session is a keyframe, and the picture order count is the number of pictures since the last keyframe, below 300 |
| EncoderLoop.KeyframeEvery300 | crates/kwin-capture/src/nvenc_session.rs:80 | among any 300 consecutive pictures, across reconfigurations, there is a keyframe |
| EncoderLoop.RequestServed | crates/kwin-capture/src/nvenc_session.rs:255-263 | the first picture encoded after a request is a keyframe |
| EncoderLoop.RequestUsedUp | crates/kwin-capture/src/nvenc_session.rs:629 | after a pending request was answered, the next picture is a keyframe again exactly when one of the two was due |
| FramePusher.PusherAlways | crates/redfog-core/src/lib.rs:901-988 | every cached buffer was built under the current caps, every buffer is pushed under the caps it was built for, and a descriptor stays held exactly when new caps could not be made |
| FramePusher.PusherLeaksExactly | crates/redfog-core/src/lib.rs:828-919 | once the capture is dropped each descriptor was closed or handed over exactly once if and only if every frame that needed new caps had a supported format and got them |
| FramePusher.CachedStaysOpen | crates/redfog-core/src/lib.rs:922-958 | a cached buffer's descriptor is never closed by the pusher |
| FramePusher.PushExactly | crates/redfog-core/src/lib.rs:901-988 | over every run, which buffer each frame is pushed as, under which caps, what becomes of its descriptor, and when the thread ends |
| ShellQuote.QuotingRoundTrip | crates/redfog-broker/src/session.rs:1371-1383 | the shell reads the exec line as exactly the payload's arguments if and only if none contains a NUL |
| ShellQuote.QuotingInjective | crates/redfog-broker/src/session.rs:1371-1375 | different argument lists give different command lines |
| SessionTable.EndsAlways | crates/redfog-broker/src/session.rs:1011-1019 | in every interleaving a session is taken for teardown or found dead at most once |
| SessionTable.TrackedExactly | crates/redfog-broker/src/session.rs:933-1019 | with or without fresh ids, a session stays tracked under its id if and only if it is neither ended nor dropped, and only an insertion of its id or a failed check of an earlier session of that id drops it |
| SessionTable.PassedIdsExactly | crates/redfog-broker/src/session.rs:1173-1185 | with or without fresh ids, an id a terminate_all has passed is tracked again if and only if it was inserted after its turn |
| SessionTable.TrackedOrEnded | crates/redfog-broker/src/session.rs:933-1019 | with fresh ids each session is tracked or has ended, never both or neither |
| SessionTable.LiveStaysTracked | crates/redfog-broker/src/session.rs:933-992 | with fresh ids a session stays tracked at a step if and only if the step neither terminates it nor finds it dead |
| SessionTable.DeadIsFound | crates/redfog-broker/src/session.rs:946-973 | a session that logind reports dead is removed and recorded as found dead, whatever happened while logind was asked |
| SessionTable.EndsRecorded | crates/redfog-broker/src/session.rs:933-1019 | each step that ends a session records that end with its cause |
| SessionTable.TerminateAllClears | crates/redfog-broker/src/session.rs:1173-1185 | when terminate_all is through, no id of its snapshot is tracked |
| SessionTable.InsertLosesExactly | crates/redfog-broker/src/session.rs:922 | inserting loses a tracked session if and only if its own id is inserted |
| SessionTable.ReusedIdLosesSession | crates/redfog-broker/src/session.rs:966-973 | a run in which an old check drops a live session of a reused id |
| Rtsp.SecondRewriteNothing | crates/redfog-moonlight/src/rtsp.rs:90-96 | a second rewrite changes nothing and finds the star or the acceptable target |
| Rtsp.RewriteExactly | crates/redfog-moonlight/src/rtsp.rs:82-97 | byte for byte: a line whose target is the star or begins with rtsp:// stays, and any other of three fields gets the star |
| Rtsp.ShortLineUntouched | crates/redfog-moonlight/src/rtsp.rs:83-88 | without a complete line, or with fewer than three fields in it, nothing changes |
| Rtsp.AccumulateGivesRewrite | crates/redfog-moonlight/src/rtsp.rs:164-177 | accumulating and rewriting gives the buffer and target of rewriting the whole stream at once |
| Rtsp.ReadsDoNotMatter | crates/redfog-moonlight/src/rtsp.rs:159-184 | for every parser, every way for a stream to arrive gives the outcome of parsing the whole rewritten stream if and only if no part of it is decided on differently |
| Rtsp.ChunkIndependence | crates/redfog-moonlight/src/rtsp.rs:159-184 | any two ways for a stream to arrive agree under exactly the same condition |
| Rtsp.StableRobust | crates/redfog-moonlight/src/rtsp.rs:164-177 | for a parser that never changes its mind, only a decision before the request line ends can differ |
| Rtsp.WaitingParserIsRobust | crates/redfog-moonlight/src/rtsp.rs:164-177 | such a parser is never misled if it waits for the line end |
| Rtsp.UntouchedStreamIsRobust | crates/redfog-moonlight/src/rtsp.rs:90-92 | nor by a stream the rewriting leaves alone, unless it makes a request of it |
| Rtsp.ReadsCanMatter | crates/redfog-moonlight/src/rtsp.rs:164-177 | a stable parser and a stream received in one read and refused in two |
| LoginFrames.RoundTrip | crates/redfog-login-protocol/src/render.rs:53-109 | reading what was written gives the message and what follows if and only if the payload is below 2^32 bytes |
| LoginFrames.StreamRoundTrip | crates/redfog-login-protocol/src/render.rs:53-109 | every list of messages is read back, then the end of the stream |
| LoginFrames.CutStream | crates/redfog-login-protocol/src/render.rs:77-90 | a stream cut inside a message gives the messages before it, then an error |
| LoginFrames.ReadsExactly | crates/redfog-login-protocol/src/render.rs:80-109 | every way a read can go, by the bytes at hand: the end, a cut message, an unknown tag, a short frame, a bad event |
| Gf256.MulAssoc | crates/redfog-moonlight/src/audio.rs:29-42 | multiplication in the code's field, the polynomial x^8+x^4+x^3+x^2+1, is associative |
| Gf256.MulComm | crates/redfog-moonlight/src/audio.rs:29-42 | and commutative |
| Gf256.DivideMul | crates/redfog-moonlight/src/audio.rs:29-42 | dividing by an invertible element undoes multiplying by it |
| Fec.CoefInvertible | crates/redfog-moonlight/src/audio.rs:36 | every entry of the parity matrix has an inverse |
| Fec.MinorInvertible | crates/redfog-moonlight/src/audio.rs:36 | every 2x2 minor of the parity matrix has an inverse |
| Crypto.ApplyBlocks | crates/redfog-moonlight/src/crypto.rs:54-79 | the in-place loop over 16-byte chunks applies the block function to each chunk and touches nothing else |
| Crypto.EcbEncrypt | crates/redfog-moonlight/src/crypto.rs:54-65 | ECB encryption, refused exactly when the length is not a multiple of 16 |
| Crypto.EcbDecrypt | crates/redfog-moonlight/src/crypto.rs:68-79 | ECB decryption, refused likewise |
| Crypto.EncryptPadded | crates/redfog-moonlight/src/crypto.rs:145-148 | in-place padded CBC gives PKCS7-padded CBC ciphertext, or nothing when the buffer has no room |
| Crypto.CbcEncrypt | crates/redfog-moonlight/src/crypto.rs:141-152 | the buffer allocated always has room, and exactly the ciphertext is returned |
| Crypto.EcbBlocks | crates/redfog-moonlight/src/crypto.rs:54-79 | each ECB block is the cipher's own image of the block in its place |
| Crypto.CbcEncryptedBlocks | crates/redfog-moonlight/src/crypto.rs:141-152 | each CBC block is the cipher's image of the padded plaintext block masked with the block before it, or the vector |
| Crypto.PadBytes | crates/redfog-moonlight/src/crypto.rs:145-148 | the padding byte for byte |
| Crypto.XorExactly | crates/redfog-moonlight/src/crypto.rs:145-148 | masking is exclusive or, bit by bit |
| Audio.AudioPacketizer.constructor | crates/redfog-moonlight/src/audio.rs:74-82 | counter and timestamp zero, four empty shards |
| Audio.AudioPacketizer.PacketizeEncrypted | crates/redfog-moonlight/src/audio.rs:97-102 | encrypts under key id plus the number the packet is about to carry, then packetizes |
| Audio.AudioPacketizer.Packetize | crates/redfog-moonlight/src/audio.rs:107-129 | the packets and the new state of one frame |
| Audio.AudioPacketizer.GenerateFecPackets | crates/redfog-moonlight/src/audio.rs:138-158 | two parity packets, or none when the four lengths differ; the state is unchanged |
| Audio.AudioPacketizer.NewFecPacket | crates/redfog-moonlight/src/audio.rs:162-178 | both headers of a parity packet byte by byte |
| Audio.DataPacket | crates/redfog-moonlight/src/audio.rs:108-114 | every header byte of a data packet, and its payload |
| Audio.FecPacketLayout | crates/redfog-moonlight/src/audio.rs:162-178 | every header byte of a parity packet, and its payload |
| Audio.IvBytes | crates/redfog-moonlight/src/audio.rs:97-99 | the initialisation vector's first four bytes are key id plus number modulo 2^32, high byte first, the other twelve zero |
| AudioReceiver.ClientIvAgrees | crates/redfog-moonlight/src/audio.rs:97-99 | the vector a client computes for itself is that one |
| AudioRun.AfterClosed | crates/redfog-moonlight/src/audio.rs:116-122 | after any number of frames the counter is that number modulo 65536 and the shards are the last four payloads |
| AudioReceiver.EqualAfterPadding | crates/redfog-moonlight/src/audio.rs:139-147 | frames of one length stay so after padding, so their group never skips parity |
| AudioReceiver.EverythingArrives | crates/redfog-moonlight/src/audio.rs:107-158 | a group without losses meets that result's condition |
| ControlWire.ReachDecides | crates/redfog-moonlight/src/control.rs:515-543 | which payloads parse, and that bytes beyond a type's reach do not matter |
| ControlWire.ServerboundIvBytes | crates/redfog-moonlight/src/control.rs:557-562 | the vector: sequence number low byte first, six zeros, twice the letter C |
| ControlWire.UnauthenticIsRefused | crates/redfog-moonlight/src/control.rs:548-575 | tag and ciphertext are taken from their places, and what does not authenticate is refused |
| ControlWire.MessageTypes | crates/redfog-moonlight/src/control.rs:515-543 | what each message type number means, and that no other means anything |
| ControlWire.ParsePlain | crates/redfog-moonlight/src/control.rs:487-513 | a plain message is read by its type and exactly as many bytes as its length says |
| InputEvents.DecodeByType | crates/redfog-moonlight/src/control.rs:607-612 | an event is decoded by its type number |
| InputEvents.ButtonsDecode | crates/redfog-moonlight/src/control.rs:638-639 | which numbers are mouse buttons |
| InputEvents.TypeNumbers | crates/redfog-moonlight/src/control.rs:614-733 | the type numbers, and that no other means anything |
| ControlContact.ThreadSteps | crates/redfog-moonlight/src/control.rs:179-189 | what a registration or its removal changes in the registry, exactly |
| ControlContact.LoopSteps | crates/redfog-moonlight/src/control.rs:315-348 | the order of a tick: snapshot, sweep, timeouts, one event |
| ControlContact.ConnectWaits | crates/redfog-moonlight/src/control.rs:349-352 | a new connection waits in its slot under a number of its own |
| ControlContact.DisconnectFrees | crates/redfog-moonlight/src/control.rs:353-358 | a disconnection frees the slot, reported if the peer was matched |
| ControlContact.OddMessages | crates/redfog-moonlight/src/control.rs:421-446 | what a matched peer says that cannot be read or means nothing is told to nobody |
| ControlWire.LawsAreConsistent | crates/redfog-moonlight/src/crypto.rs:109-130 | some cipher satisfies the laws assumed |
| ControlLoop.ControlRegistry.Register | crates/redfog-moonlight/src/control.rs:179-182 | draws the next epoch, wrapping at 64 bits, and maps the key to it |
| ControlLoop.ControlRegistry.DrawEpoch | crates/redfog-moonlight/src/control.rs:180 | the draw outside the lock |
| ControlLoop.ControlRegistry.Insert | crates/redfog-moonlight/src/control.rs:181 | the insertion under the lock |
| ControlLoop.ControlRegistry.Forget | crates/redfog-moonlight/src/control.rs:187-189 | removes the key and nothing else |
| ControlLoop.ServeLoop.SweepStale | crates/redfog-moonlight/src/control.rs:322-331 | the sweep loop over the peers is the model's sweep, callbacks included |
| ControlLoop.ServeLoop.TimeOutSilent | crates/redfog-moonlight/src/control.rs:339-346 | the timeout loop is the model's |
| ControlLoop.ServeLoop.FindKey | crates/redfog-moonlight/src/control.rs:364 | finds a registered key that parses the message if there is one |
| ControlLoop.ServeLoop.HandleMessage | crates/redfog-moonlight/src/control.rs:421-446 | the callback a message causes, or the panic |
| ControlLoop.ServeLoop.Service | crates/redfog-moonlight/src/control.rs:348-383 | one network event: connect, disconnect, match or message |
| ControlLoop.ServeLoop.Tick | crates/redfog-moonlight/src/control.rs:315-384 | one turn of the loop is the four actions of the state machine in a row |
| Resolution.ParseDecimal | crates/redfog-moonlight/src/pairing.rs:831 | parsing a printed u32 gives it back |
| PairedStore.MigrateLegacy | crates/redfog-moonlight/src/clients.rs:232-245 | the loop over legacy entries re-keys all of them in some order |
| PairedStore.ResolveFingerprint | crates/redfog-moonlight/src/clients.rs:253-267 | the search over the keys in any order gives that resolution |
| ClientManagers.ClientManager.constructor | crates/redfog-moonlight/src/clients.rs:278-296 | whatever the file, the state is what opening it must give, nobody is pending, and the current shape is written back at once |
| ClientManagers.ClientManager.StartPairing | crates/redfog-moonlight/src/clients.rs:446-463 | a fresh pending record, replacing any other of that id |
| ClientManagers.ClientManager.SubmitPin | crates/redfog-moonlight/src/clients.rs:478-486 | derives the key of salt and PIN |
| ClientManagers.ClientManager.ClientChallenge | crates/redfog-moonlight/src/clients.rs:489-514 | step 2 with all its refusals and what each has stored by then |
| ClientManagers.ClientManager.ServerChallengeResponse | crates/redfog-moonlight/src/clients.rs:517-532 | step 3 with all its refusals and what each has stored by then |
| ClientManagers.ClientManager.CheckClientPairingSecret | crates/redfog-moonlight/src/clients.rs:541-588 | step 5: the order of the checks, and the new record |
| ClientManagers.ClientManager.SetScaleForPending | crates/redfog-moonlight/src/clients.rs:365-375 | sets a pending client's default or per-resolution scale |
| ClientManagers.ClientManager.SetNameForPending | crates/redfog-moonlight/src/clients.rs:405-410 | sets a pending client's name |
| ClientManagers.ClientManager.SetScaleForPaired | crates/redfog-moonlight/src/clients.rs:386-398 | sets a paired device's scale and persists |
| ClientManagers.ClientManager.SetNameForPaired | crates/redfog-moonlight/src/clients.rs:415-422 | sets a paired device's name and persists |
| ClientManagers.ClientManager.NoteSeen | crates/redfog-moonlight/src/clients.rs:433-442 | records address and resolution of a paired device, nothing for others |
| Pairing.LawsAreConsistent | crates/redfog-moonlight/src/crypto.rs:54-180 | some suite and identity satisfy the laws assumed |
| PairingRuns.StoryOf | crates/redfog-moonlight/src/clients.rs:446-533 | every pending record is explained by the calls since its last start |
| PairedRuns.OthersUnchanged | crates/redfog-moonlight/src/clients.rs:386-442 | a call on one fingerprint leaves every other record unchanged and removes none |
| PairingSteps.PinExactly | crates/redfog-moonlight/src/clients.rs:478-486 | a submitted PIN replaces the key by the hash of salt and PIN, cut to 16 bytes, and nothing else |
| PairingSteps.ChallengeExactly | crates/redfog-moonlight/src/clients.rs:489-514 | step 2, field by field, with what the answer decrypts to |
| PairingSteps.ResponseExactly | crates/redfog-moonlight/src/clients.rs:517-532 | step 3, field by field |
| PairingSteps.UnknownClientIsRefused | crates/redfog-moonlight/src/clients.rs:478-588 | a step or setting for a client that is not pending changes nothing |
| PairingSteps.PendingSettingExactly | crates/redfog-moonlight/src/clients.rs:365-410 | a pending client's name or scale: that field alone |
| PairingSteps.SeenExactly | crates/redfog-moonlight/src/clients.rs:433-442 | a sighting updates address, last resolution and resolutions seen of a paired device, and nothing else |
| Captures.PipewireCapture.Process | crates/kwin-capture/src/pipewire_capture.rs:263-290 | a frame is queued only for a descriptor-backed plane that could be duplicated |
| Captures.PipewireCapture.NextFrame | crates/kwin-capture/src/pipewire_capture.rs:492-494 | takes the oldest frame, or nothing |
| Captures.PipewireCapture.ParamChanged | crates/kwin-capture/src/pipewire_capture.rs:138-174 | a renegotiation changes the format of later frames only |
| Captures.PipewireCapture.Drop | crates/kwin-capture/src/pipewire_capture.rs:497-519 | stops the producer and closes every queued descriptor in order |
| EncoderThreads.EncoderThread.StartSession | crates/kwin-capture/src/nvenc_session.rs:343-357 | a new session starts at frame zero with nothing imported, under the settings last taken |
| EncoderThreads.EncoderThread.HandleFrame | crates/kwin-capture/src/nvenc_session.rs:516-627 | each branch closes or hands over the descriptor exactly once, and only a frame of a connected client, of the right kind and size, goes on to be imported |
| EncoderThreads.EncoderThread.ImportBuffer | crates/kwin-capture/src/nvenc_session.rs:559-615 | what becomes of a new buffer's descriptor, by how the import ends |
| EncoderThreads.EncoderThread.ImportFrame | crates/kwin-capture/src/nvenc_session.rs:558-627 | a wanted frame: imported if its buffer is new, else released |
| EncoderThreads.EncoderThread.Poll | crates/kwin-capture/src/nvenc_session.rs:501-627 | shutdown first, then reconfiguration, then a frame |
| EncoderThreads.EncoderThread.DecideKeyframe | crates/kwin-capture/src/nvenc_session.rs:629-636 | the request flag is read and cleared only when no keyframe is due |
| EncoderThreads.EncoderThread.EncodePicture | crates/kwin-capture/src/nvenc_session.rs:629-698 | one picture, or the end of the thread when encoding fails |
| EncoderThreads.EncoderThread.DropCapture | crates/kwin-capture/src/pipewire_capture.rs:497-519 | the end of the thread joins the producer and drains the channel |
| EncoderLoop.PollWithoutFrame | crates/kwin-capture/src/nvenc_session.rs:501-514 | a shutdown comes before new settings, and those before a frame |
| EncoderLoop.ThreadEnds | crates/kwin-capture/src/nvenc_session.rs:343-357 | a session that cannot start or a picture that cannot be encoded ends the thread, whose capture is then joined and drained |
| FramePusher.PusherEnds | crates/redfog-core/src/lib.rs:901-919 | a wait that times out ends the pusher, whose capture is then joined and drained |
| EncoderLoop.OnlyEncodeAppends | crates/kwin-capture/src/nvenc_session.rs:650-698 | no picture without an encode, and one each |
| EncoderLoop.FlagsFollowCalls | crates/kwin-capture/src/nvenc_session.rs:501-531 | whether a client is connected, and a shutdown asked for, follows the last call |
| EncoderLoop.DrainCloses | crates/kwin-capture/src/pipewire_capture.rs:497-519 | draining closes what is left in the channel, first to last |
| FramePusher.PusherThread.BufferFor | crates/redfog-core/src/lib.rs:921-983 | which buffer a frame gets, and what becomes of its descriptor |
| FramePusher.PusherThread.Iterate | crates/redfog-core/src/lib.rs:901-988 | one turn of the loop; a timeout, a failed push or a panic over caps ends it |
| ShellQuote.LexEscaped | crates/redfog-broker/src/session.rs:1372-1374 | the shell reads an escaped string inside quotes as the string |
| SessionTable.TurnOf | crates/redfog-broker/src/session.rs:1180-1183 | every id a terminate_all has passed had its turn |
| SessionTable.SnapshotKept | crates/redfog-broker/src/session.rs:1174 | the snapshot holds every session tracked when it was taken |
| SessionTable.InsertTracksIt | crates/redfog-broker/src/session.rs:853 | an inserted session is tracked under its id, with its way of being checked |
| SessionTable.SessionManager.InsertSession | crates/redfog-broker/src/session.rs:853 | the insertion that ends a spawn |
| SessionTable.SessionManager.PeekSession | crates/redfog-broker/src/session.rs:946-963 | the part of the liveness check under the lock |
| SessionTable.SessionManager.FinishPeek | crates/redfog-broker/src/session.rs:968-973 | the part after logind has answered |
| SessionTable.SessionManager.TryRemove | crates/redfog-broker/src/session.rs:1014-1019 | removal, or nothing when the id is not tracked |
| SessionTable.SessionManager.TerminateAll | crates/redfog-broker/src/session.rs:1173-1185 | every tracked session is taken exactly once and the table ends empty |
| Rtsp.RewriteExtends | crates/redfog-moonlight/src/rtsp.rs:82-97 | once the line is complete, later bytes do not change the rewriting |
| Rtsp.RewriteKeepsTail | crates/redfog-moonlight/src/rtsp.rs:95 | all bytes from the first CR LF on are unchanged |
| Rtsp.LossyLawsAreConsistent | crates/redfog-moonlight/src/rtsp.rs:84 | some decoding satisfies the laws assumed |
| Rtsp.Connection.RewriteRequestTarget | crates/redfog-moonlight/src/rtsp.rs:82-97 | the in-place edit is the model's, by a search for the line end |
| Rtsp.Connection.HandleConnection | crates/redfog-moonlight/src/rtsp.rs:159-184 | the read loop is the model's: a request, another message ignored, a close, or a parse error |
| LoginFrames.Writer.WriteMessage | crates/redfog-login-protocol/src/render.rs:53-58 | appends tag, 32-bit length and payload |
| LoginFrames.Writer.WriteFrame | crates/redfog-login-protocol/src/render.rs:63-69 | appends a frame message |
| LoginFrames.Writer.WriteInput | crates/redfog-login-protocol/src/render.rs:72-75 | appends an input message |
| LoginFrames.WrittenBytes | crates/redfog-login-protocol/src/render.rs:53-75 | tag, length and payload of each message byte by byte |
| LoginFrames.Reader.Read | crates/redfog-login-protocol/src/render.rs:80-109 | reads one message, the end of the stream, or the error |

## Left out

- Assumptions about the outside: `disconnect_now` and a disconnect event free the peer's slot and no
  further event follows; ENet reports events only for connected peers; GCM authenticates a message
  under at most one key; file writes succeed; a joined thread sends nothing more.
- GPU work, CUDA, Vulkan, NVENC, EGL and GBM: foreign calls. Only who owns a descriptor is kept, and a
  call either succeeds or fails as the action says.
- EncoderLoop.NoDescriptorLeaks: the second descriptor that the Vulkan bridge exports is not modelled;
  it is owned by the CUDA import from the start.
- FramePusher.PusherLeaksExactly: making a pipeline buffer of a frame is taken not to panic, and a
  failed allocation counts as handed over.
- EncoderLoop.CadenceAlways: speaks of the picture type requested; that NVENC encodes that type is
  not modelled, and the 64-bit frame index does not wrap.
- AES, SHA-256, RSA, X.509, JSON and UTF-8 internals: parameters under laws. The block cipher
  takes keys of any length.
- fec_rs: parity is the matrix product it documents; its refusal of empty shards is not modelled,
  and encrypted payloads are never empty.
- InputEvents.DecodeInvertsEncode: keyboard events are not in it, because the table of key codes is a
  parameter; `KeysDecode` says how they are read through it.
- PairingClient.OtherPinIsRefused: speaks of one suite, since laws of hash and cipher alone do not rule
  out that two PINs give one key; `OtherPinExactly` holds for every suite.
- ControlServer.NoReentry: holds until 2^64 epochs have been drawn.
- SessionTable.TrackedOrEnded: ids are taken as fresh, which holds within one server process;
  `TrackedExactly` and `PassedIdsExactly` need no such thing.
- SessionTable.SessionManager.TerminateAll: runs without interleaving; the interleaved form is the
  state machine's `TerminateNext`.
- PairedRuns.ScaleFollowsHistory: scales are real numbers, so the rounding of their JSON text is not
  modelled.
- PairedRuns.SeenAlways: holds for loaded files that satisfy it, as every file the program writes does.
- Rtsp.ReadsDoNotMatter: the parser itself is not modelled; it is any function that wants more when
  it has nothing.
- PairingRuns.DiskAlwaysAgrees: a file is represented by what it decodes to, so the JSON text's own
  round trip is not part of it, and writes succeed.
- ShellQuote.QuotingRoundTrip: the script's other lines, which interpolate paths unquoted, are not
  modelled, nor are expansions, since the quoted line contains none.
- Sequence-gap logging, the stuck-call watchdog, frame-rate statistics and log texts.
- The notifier that wakes a blocked pairing request, HTTP routes, XML bodies and parameter decoding.
- Process spawning, systemd, logind, PAM and ACL commands: steps that only succeed or fail.
- The SDP parser and response headers of RTSP, mDNS, UDP senders, GStreamer pipelines, Wayland
  dispatch, login rendering and the command-line tools.
