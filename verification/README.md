# bgrok: a verified model

bgrok is a remote desktop. A browser or iOS client pairs with an agent through a signalling relay, signs its
connection offers with a hand-written SHA-256, and then sends pointer and scroll events over a data channel. A
beacon on the agent's network wakes the machine. This project models the parts of that system that carry state,
loops or arithmetic, and proves what they promise.

| files | what they model |
|---|---|
| `Bits`, `Bytes`, `JsNumber` | bitwise operations on naturals, big-endian numbers, and JavaScript's int32 operators on unbounded numbers |
| `Fips180`, `Fips180Bits` | SHA-256 as FIPS 180-4 defines it, the reference the program is compared with, and its functions on single bits |
| `Primes`, `RootConstants` | the sieve of the hash, and the constants it computes from square and cube roots |
| `Sha256Rounds`, `Sha256Padding`, `Sha256` | the program's SHA-256, loop by loop, proved equal to `Fips180.Digest` |
| `Relay`, `RelayServer` | the relay as a transition system, and its handlers as a class that takes exactly those steps |
| `RelayRegistry`, `RelayUnique`, `RelayDelivery`, `RelayStatus`, `RelaySender`, `RelayDiscipline` | what every run of the relay keeps, tells and forwards |
| `Base64`, `Pem`, `SignedOffer`, `Pairing` | key export, the signature on the wire, and the agent's pairing store |
| `PairingPath` | pairing from end to end: any run of the relay, and an agent that reads its mail |
| `Sampling`, `Resampler` | single-precision sampling, and the screen-capture scaling loops |
| `Reals`, `PointerGeometry`, `Motion`, `GestureMotion`, `DragMotion` | aspect fit and fill, and the three motion accumulators |
| `WakePacket` | the two builders of the Wake-on-LAN packet |

Code that updates state step by step is a method or class, proved against a function; the lemmas are about that
function. A run is a sequence of events of any length and in any order.

## How the model relates to the code

- **JavaScript numbers.** Numbers are unbounded integers. `ToInt32` and `ToUint32` reduce them where the program's
  operators do. For fewer than 2^29 characters `Sha256` also promises that no sum of the whole run leaves the range
  up to 2^53 in which doubles are exact.
- **Constants of the hash.** `Math.pow` is any function whose square and cube roots are within 2^-40 of the true
  ones (`RootConstants.Roots.Accurate`). The scaled and truncated values then equal the tables of FIPS 180-4.
- **Message length.** The program writes `asciiLength / 2^32` where the standard has `8 * asciiLength / 2^32`. It
  therefore computes SHA-256 for fewer than 2^29 characters. `PaddingAgreesIff` shows that the padding is the
  standard's exactly then, and `LongMessageDisagrees` gives the first length that is wrong.
- **Text.** The client hashes character codes and the agent hashes UTF-8. `HashedBytesAgreeIff` shows that the two
  agree exactly on ASCII text.
- **Relay steps.** One received message, one disconnect with its `finally` block, one accepted connection, one
  wake request and one scheduled notice being sent are each a single step. Sends append to the receiver's outbox; a
  send to a closed connection raises in the sender's handler.
- **Registries.** `Disciplined` (each connection registers once, and a pair request carries its sender's own id) is
  what the repository's own peers do, and then no registry entry is stale. That every open registered connection is
  also listed holds exactly while no id is registered twice (`RegistriesAreExactIff`), and the peers do not keep to
  that: an agent may reconnect before its old connection closes, and a client's pairing socket may still be open
  when its session begins. `ReconnectLosesEntry` is that run: the old connection's cleanup, which does not check
  whose entry it deletes, then unregisters the new one. `ForeignEntryRemovedIff` says exactly when a cleanup does.
- **Agent status.** A client last told "online" has its agent registered, or an offline notice on its way. A
  connection that registers as a client twice may be left with a stale "online"; `RegistrationKeepsStatusIff` gives
  the exact condition and `TwiceMisleads` the run.
- **Signatures.** The ECDSA library is an arbitrary function from key, digest and signature to a verdict.
- **Base 64.** `Decode` is the strict decoder of RFC 4648. The agent's `DecodeLenient` is Python's, which discards
  characters outside the alphabet; it is modelled from the library's documentation.
- **Scaling.** What the frame holds is proved for arbitrary sampled positions. `Sampling` then takes the conversion
  to single precision as any monotone function that keeps integers up to 2^24 and is within half a unit in the last
  place, and bounds the positions that the source computes.
- **Geometry and motion.** Coordinates are real numbers. Touch-mode moves take the normalised position as given;
  `PointerGeometry` says what it is.
- **Drags.** The iOS client forgets a drag's accumulated motion only when the drag ends in trackpad mode. A drag
  that is sent in trackpad mode but ends in touch mode is therefore taken back by the next one: `DragAfterHistory`
  gives the exact amount and condition, `SwitchLosesNextDrag` a run, and `ModeKeptExact` the runs without the fault.

## Model

| member | source | states |
|---|---|---|
| `Primes.Mark` | client/index.js:138-140 | the inner loop marks the multiples of the candidate below the limit, and nothing else |
| `Primes.UnmarkedIffPrime` | client/index.js:136-144 | when a candidate below the limit is visited, it is unmarked if and only if it is prime, for every limit |
| `Primes.ListingUnique` | client/index.js:136-144 | the limit and the number of entries determine the recorded list |
| `Primes.SieveOf313` | client/index.js:134-144 | with limit 313 the 64 recorded numbers are primes, no prime below the last is missing, and they are the listed ones |
| `Sha256.FillConstants` | client/index.js:134-144 | for any limit and count the loop stops after recording, in order, exactly the unmarked candidates, and stores the scaled roots of each |
| `RootConstants.SquareFraction` | client/index.js:141 | a root within 2^-40, scaled and truncated, is the word whose integer window brackets the square root |
| `RootConstants.CubeFraction` | client/index.js:142 | the same for cube roots |
| `RootConstants.CubeTable` | client/index.js:142 | every constant of section 4.2.2 of FIPS 180-4 lies in the window of its prime's cube root |
| `RootConstants.SquareTable` | client/index.js:141 | every initial hash word of section 5.3.3 lies in the window of its prime's square root |
| `Sha256.Constants` | client/index.js:132-144 | the computed lists are H(0) and K of the standard |
| `Sha256Rounds.RotateMeans` | client/index.js:122-124 | the signed shift-and-or is ROTR for every amount, also on a signed or unreduced operand |
| `Sha256Rounds.SigmaMeans` | client/index.js:161-171 | the xors of rotations and shifts are the Sigma functions of section 4.1.2 |
| `Sha256Rounds.LogicMeans` | client/index.js:162-172 | the signed `&`, `~` and `^` terms are Ch and Maj |
| `Fips180Bits.BitOfLogic` | client/index.js:162-172 | on each bit Ch chooses and Maj takes the majority |
| `Fips180Bits.BitOfRotr` | client/index.js:122-124 | ROTR moves the bits down in a circle |
| `Fips180Bits.BitOfShr` | client/index.js:166-168 | SHR moves them down |
| `Fips180Bits.BitOfGate` | client/index.js:160-172 | the gates work on each pair of bits |
| `Sha256Rounds.Temp1Means` | client/index.js:160-170 | the unreduced sum is T1 modulo 2^32 |
| `Sha256Rounds.Temp2Means` | client/index.js:171-172 | the unreduced sum is T2 modulo 2^32 |
| `Sha256Rounds.RoundIsExact` | client/index.js:160-174 | no sum of a round, from left to right, leaves the range in which doubles are exact |
| `Sha256Rounds.BlockIsExact` | client/index.js:154-180 | for schedule entries in range no sum of a block's rounds, schedule and final additions does |
| `Sha256Rounds.RotateList` | client/index.js:173-175 | prepending, adding into entry 4 and cutting the list to 8 is one round on the eight working variables |
| `Sha256Rounds.ExpandMeans` | client/index.js:164-169 | a schedule entry computed from signed entries is W_t of section 6.2.2 |
| `Sha256Rounds.ExtendSchedule` | client/index.js:158-170 | extending the list keeps it a schedule |
| `Sha256Rounds.CompressBlock` | client/index.js:154-180 | one block's loops are the standard's compression |
| `Sha256Rounds.AddOld` | client/index.js:177-179 | the final additions are those of step 4 of section 6.2.2 |
| `Sha256Padding.Pad` | client/index.js:145-146 | the loop ends and appends 0x80 and the least number of zeros that leaves room for the length |
| `Sha256Padding.OrByte` | client/index.js:150 | or-ing a shifted character into a signed word places it in its byte, whatever the sign of the word |
| `Sha256Padding.Pack` | client/index.js:147-151 | packing fails exactly on a character above 255; otherwise every word has its four bytes |
| `Sha256Padding.PadAndPack` | client/index.js:145-153 | all words but the two length words are those of section 5.2.1 |
| `Sha256Padding.PaddingAgreesIff` | client/index.js:152-153 | the words are the standard's padding if and only if the text has fewer than 2^29 characters |
| `Sha256Padding.LongMessageDisagrees` | client/index.js:152 | at 2^29 characters the high length word is 0 and should be 1 |
| `Sha256Padding.PaddingInjective` | client/index.js:145-153 | two texts with the same words are the same text |
| `Sha256.HashAll` | client/index.js:154-180 | over any number of blocks the list holds the standard's hash value, starting from a list of 64 entries |
| `Sha256.RunIsExact` | client/index.js:154-180 | no sum of the run over all blocks is rounded, if the packed words are in range |
| `Sha256.PackedEntries` | client/index.js:147-153 | for fewer than 2^29 characters the packed words are in range |
| `Sha256.OutputBytes` | client/index.js:183-188 | the four shifted and masked values are the word's big-endian bytes |
| `Sha256.Output` | client/index.js:181-190 | the result is the 32 bytes of the hash value |
| `Sha256.Sha256` | client/index.js:121-191 | undefined exactly for text with a character above 255; the FIPS 180-4 digest, computed without a rounded sum, for fewer than 2^29 characters; for longer text the standard's compression over the program's own length words |
| `RelayServer.Server.Dispatch` | relay/relay.py:47-147 | the handlers, branch by branch, do what `Relay.Handle` says, and raise when it does |
| `RelayServer.Server.OnMessage` | relay/relay.py:36-174 | receiving a message is one step of the transition system, with its cleanup if it raises |
| `RelayServer.Server.OnDisconnect` | relay/relay.py:149-174 | a disconnect is one step |
| `RelayServer.Server.Finally` | relay/relay.py:153-174 | the cleanup of the role, for any contents of the registries |
| `RelayServer.Server.NotifyClients` | relay/relay.py:158-163 | the loop over the mapping schedules exactly one offline notice for each client mapped to the agent, for the socket registered then, in any iteration order |
| `RelayServer.Server.RunTask` | relay/relay.py:161-163 | a scheduled notice is sent later, in any order, and a closed socket loses it |
| `RelayServer.Server.DropBeacon` | relay/relay.py:169-174 | the loop deletes the first entry of the connection, in insertion order, and no other |
| `RelayServer.RemoveFirst` | relay/relay.py:169-174 | what is deleted is one entry, the first of that connection, and the others keep their order |
| `RelayServer.Server.WakeAgent` | relay/relay.py:180-194 | a wake request is one step, with its three outcomes |
| `RelayRegistry.StepSound` | relay/relay.py:52-174 | every step keeps the registries well formed |
| `RelayRegistry.RunSound` | relay/relay.py:52-174 | in every run `clients` and `client_to_agent` have the same keys and no agent has two beacon entries |
| `RelayRegistry.SetBeaconInPlace` | relay/relay.py:70 | registering a beacon again replaces its entry where it stands |
| `RelayRegistry.SetBeaconAppends` | relay/relay.py:70 | a new beacon comes last |
| `RelayRegistry.DisciplinedNamed` | relay/relay.py:52-174 | in every disciplined run each agent, client and beacon entry points to an open connection whose locals name it |
| `RelayUnique.StepListedIff` | relay/relay.py:52-84 | from exact registries a disciplined step leads to exact ones if and only if it is no complete registration under an id that another open connection has |
| `RelayUnique.RegistriesAreExactIff` | relay/relay.py:52-174 | in disciplined runs the registries are exactly the open registered connections all along if and only if no such registration occurs |
| `RelayUnique.NoSendFails` | relay/relay.py:104-147 | in disciplined runs no forwarded message meets a closed connection: a handler raises only on a message that is no object |
| `RelayUnique.WakeReachesBeacon` | relay/relay.py:180-194 | in disciplined runs a wake request never fails to reach a registered beacon, and only its outbox changes |
| `RelayUnique.BeaconFoundIff` | relay/relay.py:182-183 | the lookup finds exactly the entry of the agent, if there is one |
| `RelayUnique.ForeignEntryRemovedIff` | relay/relay.py:155-168 | closing a connection removes an entry of another one if and only if the id in its locals is registered to that one |
| `RelayUnique.ReconnectLosesEntry` | relay/relay.py:153-174 | an agent or client that opens a second connection before its first one closes ends open and registered in its locals but missing from the registry; a beacon stays listed |
| `RelayDiscipline.ForeignPairLeavesEntry` | relay/relay.py:125-127 | a client that pairs under another id and leaves keeps an entry that points to a closed connection |
| `RelayDiscipline.SecondIdLeavesEntry` | relay/relay.py:52-58 | so does an agent that registers under two ids |
| `RelayDelivery.OnlineMeansRegistered` | relay/relay.py:81-90 | in every run in which no connection registers as a client twice, a client last told "online" has its agent registered now or an offline notice on its way |
| `RelayDelivery.RegistrationKeepsStatusIff` | relay/relay.py:81-90 | a registration keeps that property if and only if it does not tell "online" to a connection with another client id whose agent is away and no notice on its way |
| `RelayDelivery.StepStatus` | relay/relay.py:86-163 | every step but such a registration keeps the property |
| `RelayDelivery.TwiceMisleads` | relay/relay.py:81-90 | a run with a second registration in which it fails |
| `RelayStatus.ClientAnswer` | relay/relay.py:81-90 | a complete client registration is answered with whether its agent is registered, and nobody else is told anything |
| `RelayStatus.RegistrationAnswers` | relay/relay.py:43-80 | every other registration and a text that is not JSON get their one answer |
| `RelayStatus.OnlineIffAgentOpen` | relay/relay.py:86-90 | in disciplined runs with unique ids the answer is "online" if and only if some open connection is registered as that agent |
| `RelayStatus.OwedExactly` | relay/relay.py:155-163 | a message or disconnect schedules for each connection one notice for each of its clients whose agent is registered before and not after, and no other |
| `RelayStatus.NoticesAccounted` | relay/relay.py:81-163 | in every run an open connection was told "online" once for each registration with its agent there, and was told or is owed "offline" once for each registration without and each loss of a client's agent |
| `RelayStatus.RoutedSignal` | relay/relay.py:100-120 | a routed signal is put into one mailbox once, and nothing else is sent |
| `RelayStatus.UnroutedSignal` | relay/relay.py:109-122 | a signal that cannot be routed is answered with an error for a client and dropped for others |
| `RelayStatus.PairRequestAnswer` | relay/relay.py:125-137 | a pair request is put once into the mailbox of the agent it names, or refused |
| `RelayStatus.PairResponseAnswer` | relay/relay.py:139-147 | a pair response is put once into the mailbox of the client it names |
| `RelayStatus.NoAnswer` | relay/relay.py:47-49 | everything else received, and a disconnect, sends nothing |
| `RelayDelivery.StepDelivers` | relay/relay.py:93-123 | outboxes only grow, and a step delivers the received payload with the sender's name to the connection registered under the target, or no signal at all |
| `RelayDelivery.OneRecipient` | relay/relay.py:93-123 | a signal goes to at most one connection |
| `RelayDelivery.SignalsInOrder` | relay/relay.py:93-123 | in every run the signals delivered from one connection to another are an in-order subsequence of those sent, payload and sender unchanged |
| `RelayDelivery.OutboxIsDeliveries` | relay/relay.py:93-123 | an outbox holds the deliveries of its run and no other signal |
| `RelaySender.NamesAreRegistered` | relay/relay.py:52-84 | in disciplined runs the name in a registered connection's locals is the id it registered under |
| `RelaySender.SignalsAreNamed` | relay/relay.py:104-120 | in disciplined runs a delivered signal carries the id its sender registered under, and with unique ids that id is registered to the sender now |
| `RelaySender.TargetStems` | relay/relay.py:82-83 | in every run a client entry and its target agent come from one registration that its connection sent |
| `RelaySender.SignalsReachTarget` | relay/relay.py:100-118 | in every run a client's signal is delivered only to the agent its name was registered for, whatever destination it gives, and an agent's only to the client it names |
| `Base64.RoundTrip` | client/index.js:280 | decoding inverts encoding for all bytes (section 4 of RFC 4648) |
| `Base64.AlphabetIs` | client/index.js:280 | the characters are those of table 1 of RFC 4648, in both directions |
| `Base64.GroupValues` | client/index.js:280 | three bytes and their four characters are the same number; one or two bytes are followed by zero bits and padding |
| `Base64.EncodeConcat` | client/index.js:280 | groups of three bytes are encoded on their own, in order |
| `Base64.ScanSkips` | agent/server.py:50 | Python's lenient decoding depends only on the alphabet and padding characters |
| `Base64.LenientExtends` | agent/server.py:50 | it agrees with the strict decoder on all text that decodes strictly |
| `Base64.LenientRoundTrip` | agent/server.py:50 | an encoding with any other ASCII characters strewn in decodes to the same bytes |
| `Base64.LenientAccepts` | agent/server.py:50 | after digits the lenient decoder needs the padding that the last group lacks, or more |
| `Base64.NotAsciiRefused` | agent/server.py:50 | it refuses text that is not ASCII |
| `Base64.EncodedLength` | client/index.js:280 | the text has four characters for every three bytes, rounded up |
| `Base64.EncodedChars` | client/index.js:260 | the text is of the alphabet and padding only, so it holds no line break |
| `Pem.Set` | client/index.js:252-253 | copying a list into the array changes exactly its range |
| `Pem.LinesShape` | client/index.js:260 | the pieces concatenate to the text, have 1 to 64 characters, and only the last may be short |
| `Pem.SplitJoin` | client/index.js:261 | splitting at line breaks inverts joining |
| `Pem.Export` | client/index.js:243-262 | the buffer and string loops produce the markers around the broken base64 of header and key bytes |
| `Pem.ReadExported` | client/index.js:243-262 | stripping the markers, joining the lines and decoding returns header and key bytes, for every key |
| `Pem.HeaderFitsIff` | client/index.js:245-250 | the fixed DER lengths describe the contents, and the key is read back, if and only if the key has 65 bytes |
| `Pem.AlgorithmIsP256` | client/index.js:245-250 | the two object identifiers of the header, read by their arcs, are 1.2.840.10045.2.1 and 1.2.840.10045.3.1.7 |
| `Pem.ExportedKeyRead` | client/index.js:243-262 | reading an exported key yields an elliptic curve key on P-256 and its bytes, if and only if they are 65 |
| `SignedOffer.EncodeSignature` | client/index.js:269-280 | the loops produce the base64 of r and s, each as 32 big-endian bytes |
| `SignedOffer.SignatureRoundTrip` | agent/crypto_helper.py:124-130 | the agent takes the 64-byte branch and recovers exactly r and s, for all of them below 2^256 |
| `SignedOffer.RawInjective` | agent/crypto_helper.py:124-130 | exactly 64 bytes are read as a pair, other signatures pass unchanged, and different signatures stay different |
| `SignedOffer.Utf8RoundTrip` | agent/server.py:48 | the bytes the agent hashes decode, by the rules of RFC 3629, to the text, for all text without surrogates |
| `SignedOffer.HashedBytesAgreeIff` | agent/server.py:48 | the bytes the client hashes are the bytes the agent hashes if and only if the text is ASCII |
| `SignedOffer.AccentDisagrees` | agent/server.py:48 | one accented letter is hashed differently |
| `SignedOffer.OfferChecked` | agent/server.py:46-58 | for ASCII text the agent's verdict is the library's on the stored key, the digest the client signed and the client's own pair |
| `Pairing.Agent.HandlePairingRequest` | agent/server.py:117-150 | missing fields, wrong code and matching code each do one step of the model |
| `Pairing.Agent.HandleSignalingOffer` | agent/server.py:32-115 | an offer does one step of the model: an answer only after every check |
| `Pairing.StoreIsLatest` | agent/server.py:131-142 | in every run the stored key of a client is that of its latest code-matching request, or the loaded one, or none |
| `Pairing.AnswersAreVerified` | agent/server.py:46-112 | in every run a client is sent an answer if and only if an offer of its verified under the key it had at that moment, and once for each such offer |
| `Pairing.UnpairedIsNotAnswered` | agent/crypto_helper.py:95-98 | a client without loaded key and code-matching request is never answered |
| `Pairing.ApprovedIffMatched` | agent/server.py:131-150 | approvals are sent to exactly the senders of code-matching requests |
| `Pairing.RequestsAnswered` | agent/server.py:125-150 | in every run each complete request is answered once, approved if its code is right and rejected if not |
| `PairingPath.StepPairMail` | relay/relay.py:125-147 | a step puts a pairing message into a mailbox if and only if it proxies it there, with the fields unchanged |
| `PairingPath.PairMailStems` | relay/relay.py:125-147 | in every run the pairing messages in a mailbox are exactly those that a step proxied there |
| `PairingPath.InboxOffers` | agent/server.py:295-298 | the agent handles exactly the signals in its mail as offers, each under its sender's name |
| `PairingPath.StoredKeysWereSent` | agent/server.py:282-298 | whatever the relay's run and however much of its mail the agent has read, each stored key was loaded, or sent to the relay by a connection that gave the agent's current code |
| `PairingPath.ApprovedIffSent` | agent/server.py:131-150 | an agent that has read its mail has approved a client if and only if some connection sent a key for it with the agent's code |
| `PairingPath.AnsweredWasPaired` | agent/server.py:46-112 | a client that is sent an answer was loaded, or had a key sent with the agent's code |
| `Resampler.Resample` | agent-rust/src/screen_capture.rs:40-60 | for any sizes, pitch and sampling the loops stay in bounds and write the whole image |
| `Resampler.FillRow` | agent-rust/src/screen_capture.rs:46-59 | the inner loop appends one row and leaves the earlier ones |
| `Resampler.ScreenCapture.OnFrameArrived` | agent-rust/src/screen_capture.rs:26-67 | the shared frame is replaced by the new image |
| `Resampler.ImagePixel` | agent-rust/src/screen_capture.rs:45-60 | each channel of each target pixel is the opposite channel of the clamped source pixel, which lies in the buffer |
| `Resampler.FramePixel` | agent-rust/src/screen_capture.rs:45-60 | the same with both indices written out: byte y * width * 3 + x * 3 + channel comes from the clamped row and column of the sampling |
| `Resampler.DestIndexUnique` | agent-rust/src/screen_capture.rs:53-58 | no destination byte belongs to two pixels or channels |
| `Resampler.DestIndexCovers` | agent-rust/src/screen_capture.rs:53-58 | every destination byte belongs to one |
| `Resampler.PaddingIgnored` | agent-rust/src/screen_capture.rs:46-58 | buffers that agree on colours give the same frame, whatever their row padding and alpha |
| `Sampling.SampleMonotone` | agent-rust/src/screen_capture.rs:42-51 | in single precision the sampled position never goes backwards, for any sizes |
| `Sampling.SampleInside` | agent-rust/src/screen_capture.rs:42-51 | in single precision the position stays inside the source, for sources up to 2^24 and targets up to 2^22 pixels |
| `Sampling.SampleNear` | agent-rust/src/screen_capture.rs:42-51 | it is within one pixel of the product without rounding, for sources up to 2^22 pixels |
| `Sampling.SampleIdentity` | agent-rust/src/screen_capture.rs:42-51 | at equal size it is the identity |
| `Resampler.SamplingMonotone` | agent-rust/src/screen_capture.rs:46-51 | the clamped samples of a frame are in order on both axes |
| `Resampler.ClampNeverActs` | agent-rust/src/screen_capture.rs:46-51 | in single precision the clamps leave every position alone |
| `Resampler.SamplingNear` | agent-rust/src/screen_capture.rs:46-51 | each sampled row and column is within one pixel of the exact one |
| `Resampler.EqualSizeCopies` | agent-rust/src/screen_capture.rs:42-60 | at equal size the frame is the source pixel by pixel, in single precision |
| `PointerGeometry.DrawnShape` | ios/bgrok/ContentView.swift:806-832 | the drawn rectangle has the video's aspect, is centred and touches the view on one axis |
| `PointerGeometry.FitInsideFillCovers` | ios/bgrok/ContentView.swift:814-832 | the rectangle lies inside the view for fit and covers it for fill |
| `PointerGeometry.DrawThenRead` | ios/bgrok/ContentView.swift:801-841 | reading the location at which a video point is drawn returns the point, in both modes |
| `PointerGeometry.ReadThenDrawIff` | ios/bgrok/ContentView.swift:834-840 | the reading is unclamped if and only if the location lies in the drawn rectangle |
| `PointerGeometry.ReadsNearest` | ios/bgrok/ContentView.swift:834-838 | a location beside the picture is read as the nearest point of the picture |
| `PointerGeometry.FillNeverClamps` | ios/bgrok/ContentView.swift:814-822 | in fill mode no location in the view is clamped |
| `PointerGeometry.PathError` | agent/input_injector.py:135-140 | from video point to absolute units less than one unit is lost on each axis, 0 goes to 0 and 1 to 65535 |
| `PointerGeometry.PathMonotone` | agent/input_injector.py:135-140 | the composed path is monotone on each axis, also outside the picture |
| `PointerGeometry.PathReaches` | agent/input_injector.py:135-140 | every pair of units is reached by a location inside the picture |
| `Motion.TruncationError` | agent/input_injector.py:128-131 | n events truncated on their own lose less than n units in all, in either direction |
| `Motion.TruncTowardZero` | agent/input_injector.py:131 | truncation goes toward zero, is odd and keeps whole numbers |
| `GestureMotion.Trackpad.PointerMove` | client/index.js:695-707 | a pointer move is one step of the accumulator; without capture it is none |
| `GestureMotion.TwoFingerScroll.TouchMove` | client/index.js:896-911 | a two-finger move is one step of the accumulator with the scroll's factor and threshold |
| `GestureMotion.MovementConserved` | client/index.js:686-707 | scaled movement is exactly what was sent, what new grabs discarded and what is unsent |
| `GestureMotion.SentNearTravelled` | client/index.js:686-707 | the total sent is off by at most one threshold per stroke, for any events |
| `GestureMotion.OneStroke` | client/index.js:885-911 | within a stroke the total sent is exactly the scaled movement of the anchor, and within the threshold of the finger's after every event |
| `GestureMotion.TrackpadStroke` | client/index.js:686-707 | in numbers: 1.3 times the anchor's movement is sent, at most 1 on each axis is unsent, and every event is more than 1 on some axis |
| `GestureMotion.ScrollStroke` | client/index.js:888-911 | the same with a tenth of the movement and 0.1 |
| `GestureMotion.MidpointMoves` | client/index.js:888-899 | moving two fingers together moves the midpoint along, and pinching leaves it |
| `GestureMotion.EverySendMoves` | client/index.js:702-704 | every trackpad event moves the truncated cursor by at least one pixel |
| `GestureMotion.SendsBoundedByPath` | client/index.js:695-707 | the number of events is bounded by the length of the path, whatever the number of pointer events |
| `GestureMotion.CursorFollowsTrackpad` | agent/input_injector.py:128-131 | after n >= 1 events of a stroke the cursor is within n + 1 pixels of 1.3 times the movement |
| `GestureMotion.WheelFollowsFingers` | agent/input_injector.py:169-190 | after n >= 1 events the wheel is within n + 12 units of 12 times the fingers' movement |
| `DragMotion.DragGesture.OnChanged` | ios/bgrok/ContentView.swift:212-241 | a change is one step in either mode |
| `DragMotion.DragGesture.OnEnded` | ios/bgrok/ContentView.swift:242-270 | an end is one step in either mode, with the timer of a tap |
| `DragMotion.DragGesture.OnTimer` | ios/bgrok/ContentView.swift:265-267 | the timer releases the button once |
| `DragMotion.PressesAreReleased` | ios/bgrok/ContentView.swift:262-268 | in every run each press has been released or has its own timer pending |
| `DragMotion.PressesAreTaps` | ios/bgrok/ContentView.swift:262-264 | in every run the presses are exactly the drags that end in touch mode within 8 points |
| `DragMotion.SentIsTrace` | ios/bgrok/ContentView.swift:212-270 | in every run the client sends exactly the moves, presses and releases that the history of events determines, in order: the accumulating handlers refine a form without accumulator |
| `DragMotion.MotionConserved` | ios/bgrok/ContentView.swift:212-268 | moves sent and motion accumulated are 1.4 times the completed drags and the last translation, for any timing and any change of mode |
| `DragMotion.DragsSumExactlyIff` | ios/bgrok/ContentView.swift:212-256 | from any state, a run that ends a trackpad drag sends exactly 1.4 times its completed drags if and only if the accumulated motion was the last translation |
| `DragMotion.DragAfterHistory` | ios/bgrok/ContentView.swift:212-256 | after any history a trackpad drag moves by 1.4 times its translation less the translation last sent of unfinished drags, so exactly if and only if the latter is zero |
| `DragMotion.ModeKeptExact` | ios/bgrok/ContentView.swift:212-256 | if every drag that saw a trackpad change ended in trackpad mode, each trackpad drag moves by exactly 1.4 times its translation |
| `DragMotion.SwitchLosesNextDrag` | ios/bgrok/ContentView.swift:243-256 | after a drag that is sent in trackpad mode and ends in touch mode, the same drag again sends nothing |
| `DragMotion.LeftOver` | ios/bgrok/ContentView.swift:215-229 | in every run the accumulated motion and the last translation differ by the translation last sent of unfinished drags |
| `DragMotion.CompletedExactlyIff` | ios/bgrok/ContentView.swift:215-256 | at any moment the moves sent are exactly 1.4 times the completed drags if and only if that translation is zero |
| `DragMotion.SendsSpaced` | ios/bgrok/ContentView.swift:222-239 | sends of the change handler are at least 0.022 s apart, n of them at least n times that, whatever the clock does |
| `DragMotion.DragRate` | ios/bgrok/ContentView.swift:222-239 | between times a and b a drag sends at most (b - a) / 0.022 + 1 events before its end |
| `DragMotion.CursorFollowsDrags` | agent/input_injector.py:128-131 | after the agent's truncation n moves are off by less than n pixels from 1.4 times the drags |
| `WakePacket.ClientPacket` | ios/bgrok/ContentView.swift:843-860 | the loops build six FF bytes and sixteen copies of the bytes of the pairs that parse |
| `WakePacket.FromHexConcat` | beacon/main.py:26-27 | hex decoding distributes over concatenation after any decodable text |
| `WakePacket.FromHexShape` | beacon/main.py:27 | decodable text is digits and white space, and gives one byte for two digits |
| `WakePacket.BuildersAgreeIff` | beacon/main.py:21-27 | the two builders agree on a text if and only if its cleaned length is not 12 or every aligned pair is two digits or two white space characters |
| `WakePacket.BothMagic` | ios/bgrok/ContentView.swift:845-860 | for twelve digits in any case both packets are six FF bytes and the named address sixteen times |
| `WakePacket.FullPacketIff` | beacon/main.py:21-27 | the beacon sends 102 bytes if and only if the cleaned text is twelve digits |
| `WakePacket.ClientFullIff` | ios/bgrok/ContentView.swift:847-856 | the client sends 102 bytes if and only if each pair is two digits, a plus sign and a digit, or minus zero |
| `WakePacket.WrongLengthSendsNothing` | beacon/main.py:22-23 | without twelve characters neither side sends anything |
| `WakePacket.CleanExactly` | beacon/main.py:21 | cleaning drops colons and dashes and keeps every other character in order |
| `WakePacket.DigitValues` | beacon/main.py:27 | the digits, their values in both cases, and the white space that is skipped |
| `WakePacket.WrittenRoundTrip` | beacon/main.py:21-27 | an address written with colons, dashes or nothing, in either case, is sent as that address |

## Left out

- WebRTC, sockets, TLS, screen capture and input injection themselves: foreign code.
- ECDSA, PEM key loading and the DER encoding of a signature: library calls, of which only the verdict is used.
- The global peer connection of the agent and the HTTP offer path: each handler is atomic here, and an offer's negotiation is an arbitrary outcome.
- The agent's reconnects: `PairingPath` follows one connection of the agent, and the store it has then is the loaded one for the next.
- Pair responses are forwarded whatever the sender's role, as in the source; that a client's approval came from its agent is not claimed.
- The file behind the pairing store: the store is the dictionary in memory, and a failed write changes nothing in it.
- Relay ids and payloads that are JSON values other than strings: an unhashable id would raise where the model treats it as a string.
- Relay steps between two awaits of one handler: each handler has finished its updates when it awaits its one send, and the send is part of its step.
- Sends to a connection that has broken but is not yet known to be closed.
- Strings beyond the lengths a JavaScript engine allows: the length words are modelled as exact integers.
- Surrogate pairs: text in the UTF-8 model is a sequence of code points, and the comparison with the client's character codes is for codes below 256.
- A zero-sized frame or a buffer shorter than its rows: the source panics on them, and they are excluded.
- Floating-point rounding of coordinates and motion, and views or videos of size zero, which divide by zero in the source.
- A second finger captured on the trackpad area: its events are events of the same accumulator, so the displacement is that of the last position reported.
- Swift characters of more than one scalar value in a MAC text, and the network code that sends the packets.
- Registration reconnect loops, statistics, logging, certificates, launchers and keyboard tables.
