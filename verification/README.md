# EAP-AKA server model

A Dafny model of the server side of EAP-AKA (RFC 4187) as this repository implements it, from
bytes on the wire to whole runs of the server, with proofs about it. `dafny verify dfyconfig.toml`
checks everything.

The layers, bottom up:

- **Bytes** (`Bytes`, `Bits`, `BigEndian`): byte strings, bitwise xor and or, big-endian numbers.
  Every Go call that can index out of range or fail to end has an `Outcome`: `Ok`, `Err`, `Panic`
  or `Hang`. Nothing is repaired: where the code runs past a buffer or loops on a zero length
  byte, so does the model.
- **Wire formats** (`Codec`, `RoundTrip`, `Misalignment`, `Mac`, `Capacity`, `Encryption`, `Wire`): the
  attribute and packet codec, sealing with AT_MAC, the encrypted inner attributes. Three loops walk
  the same framing (the packet decoder, the inner decoder, the MAC locator) and are proved to agree.
  `Wire` writes every layout, and both requests the server sends, out in bytes.
- **Arithmetic and key material** (`Keys`, `Rotation`, `Milenage`, `Card`, `Hss`): the generator's
  160-bit arithmetic in place, 128-bit rotation, AUTS, the sequence number in the mock HSS. `Card` is
  MILENAGE once more, over 128-bit integers, and agrees with the byte-level code. AES, SHA-1 and
  HMAC are fields of `Primitives.Crypto`, known only by their output sizes; where it is needed,
  AES decryption inverts AES encryption (`Invertible`).
- **Protocol** (`Protocol`, `Handlers`, `Soundness`, `Effects`): each handler call as a function of the
  stores, the classes with mutable fields that are proved to do exactly that, store by store, and
  what each call answers and changes, exactly, in terms of what came in. What the HSS, the
  subscriber table and the random source answer, and which store calls fail, are inputs of the call.
- **Runs** (`Runs`, `Safety`, `Backing`, `ReauthBacking`, `Identities`, `OneShot`,
  `Completion`, `Lifetime`, `Resynchronization`, `Counterexamples`): any sequence of calls with any
  such inputs, and any key expiring at any time, also between the read and the update of a
  resynchronization.
- **Around it** (`Routes`, `Idempotency`, `Tokens`, `Xml`, `XmlContent`): the EAP path of POST /entitlement with
  its response cache, the token cache against the database, the XML document and a parser for it.

Main results: a fast re-authentication started for any live identity below counter 65535 and
answered by an honest peer completes, byte for byte (`FastReauthCompletes`), so from an empty server
an honest peer reaches every counter up to 65535 and none beyond (`WholeLife`); every success of a
fast re-authentication is made under the keys and the counter of an identity that was live when its
session was opened (`ReauthSound`), and every success of a full authentication answers the latest
challenge its session records (`RecordedChallengeAnswered`, `FullAuthSound`); every live identity
descends from a full authentication by as many steps as its counter says (`Provenance`), and is
stored again only on a session that was left behind (`StoredTwiceOnlyIfLeft`); keys fit their
session in every reachable state (`AlwaysConsistent`); no session succeeds twice unless its delete
failed, and all 200 answers on one session are one answer (`SucceedsTwiceOnlyIfLeft`,
`OneAnswerPerSession`); an attribute is read back exactly when it is well framed
(`ReadsBackExactly`); AUTS is accepted exactly when it was made for that sequence number
(`AutsExact`).

Where the code and what it implements or promises disagree, the model follows the code:

- AT_AUTS and unknown kinds are written two bytes longer than their length byte says. A packet with an
  odd number of them is never decoded (`OddNeverDecodes`, and `EncodedAutsNeverDecodes` for one
  AT_AUTS anywhere); two can make up for each other (`MisalignmentsCancel`).
- The decoder skips two bytes of AT_AUTS that section 10.9 of RFC 4187 does not have. A packet with
  the standard's AT_AUTS is accepted only if two more bytes follow, and its AUTS is then read
  two bytes off (`StandardAutsRead`), so a conforming device's AUTS reaches the HSS only if it is one
  pair of bytes seven times over (`StandardAutsReachesHss`). The 24-byte synchronization failure such
  a device sends makes the handler panic, which is answered 500, unless line breaks in the relay
  leave two spare bytes behind it; the HSS is then asked about the misread AUTS (`StandardResync`) and
  refuses it unless it happens to be an AUTS itself (`MisreadRefused`). A device that adds the two
  bytes before and two of padding after is resynchronized (`PaddedResync`).
- Decoding base64 can leave spare capacity behind a packet, and a Go slice expression reaches into it.
  That changes nothing unless decoding without it runs past the end (`DecodedAgrees`); where it does,
  an AT_MAC can be taken out of the spare bytes and the verifier then indexes past the packet
  (`CheckRunsExactly`, `MacInSpareBytes`). Every relay a handler gets comes with its spare bytes.
- AK* and MAC-S are not those of section 4.1 of TS 35.206, which takes them from OUT5 with rotation 96
  and constant 8 and from the low half of OUT1; the code uses rotation 0 and constant 0x10, and the
  high half of an OUT1 with constant 0x80. `AkStarIsNotTheStandards` is an input on which they differ.
  The device of the resynchronization results is one that computes what this code does.
- The re-authentication response MAC covers the packet alone, not the packet and NONCE_S as section
  10.15 of RFC 4187 has it. `ReauthSucceedsExactly` says what a success depends on: neither the nonce
  nor the identifier. Open sessions that share keys and counter succeed on exactly the same responses
  (`ChallengesNotTold`), so one honest reply completes two sessions opened for one identity and leaves
  two live identities (`OneReplyTwoSessions`).
- The token cache holds the expiry in nanoseconds and the database column in microseconds, so for a
  fraction of a microsecond the cache accepts what the database refuses. `ValidatesLikeDatabase`
  says exactly when; `TruncationShows` is an instance.
- An XML answer is cached inside a JSON object and repeated as that JSON (`XmlRetryIsJson`).
- The idempotency key hashes the session id and the relay with nothing between them, and the server
  does not look at the length of the id it is sent. A POST on an id that never existed, which only
  splits the same characters differently, is answered with another session's 200 (`ForeignAnswer`).
  A 200 belongs to the session the POST names exactly when that id has the length of the ids the
  server draws (`OkOriginates`).
- A successful re-authentication ignores a failure to delete its session. The same response then
  succeeds again and stores the same identity twice (`FailedDeleteStoresTwice`), which is the only way
  an identity is stored twice (`StoredTwiceOnlyIfLeft`).
- A resynchronization ignores a failure to update its session. The answer to the older challenge then
  succeeds although a newer one was sent (`FailedUpdateAnswersOlder`).
- Escaping leaves tabs, newlines and carriage returns, which a conforming XML reader turns into
  spaces, and control characters and two others, for which it refuses the document: it gets a string
  back exactly when it holds none of all these (`ConformingValue`, `ControlCharacterRefused`).
- An update skips identifier 0, so after a resynchronization that was sent identifier 0 the stored
  one is the previous one. `Backed` and `ProvenBy` state the identifier under that condition.

Hypotheses used by some run-level results, each a predicate over the run: random identities are
drawn once (`FreshIdentities`); session ids are drawn once (`FreshSessions`) and have one length
(`DrawsLength`); SHA-256 does not collide on the strings of the run (`NoCollisions`). Hypotheses about
failing calls are local: the responses that stored one identity deleted their sessions (`Consumed`, and
`LineConsumed` for its ancestors), the successes on one session id did (`DeletesOn`), the challenges
sent on one session reached its record (`UpdatesSucceed`). No other hypothesis is made about what
clients send. The runs of `WholeLife`, in which no call fails, are runs with successes of both kinds.

## Model

| member | source | states |
|---|---|---|
| Codec.EncodePayload | internal/eapaka/codec.go:30-82 | each kind's payload filled in a zeroed buffer as the kind's layout says, a panic for values too short for their slice |
| Codec.EncodeAttribute | internal/eapaka/codec.go:84-90 | type byte, length byte in whole 4-byte words rounded down and truncated to a byte, then the payload |
| Codec.EncodeAttributes | internal/eapaka/codec.go:172-176 | the loop appends the encodings in order, or ends as the first failing one does |
| Codec.EncodeEapPacket | internal/eapaka/codec.go:162-196 | four bytes for Success and Failure; otherwise header, type with EAP-AKA as default, subtype, two zero bytes, attributes |
| Codec.DecodeEapPacket | internal/eapaka/codec.go:93-242 | with any spare bytes behind the packet, the loop computes the recursive reading of the attributes up to the header length, with its errors, panics and its non-termination on a zero length byte |
| Codec.Find | internal/eapaka/orchestrator.go:282-289 | None exactly when no attribute has the kind; otherwise the attribute of that kind with no earlier one of it |
| Codec.FindAttribute | internal/eapaka/orchestrator.go:282-289 | the loop returns the first attribute of the kind |
| RoundTrip.AttributeRoundTrip | internal/eapaka/codec.go:29-159 | a well-framed attribute, encoded anywhere in any buffer, is decoded to itself and claims exactly its bytes |
| RoundTrip.ReadsBackExactly | internal/eapaka/codec.go:29-159 | decoding an encoded attribute gives it back and claims its length if and only if it is well framed, for every kind and value |
| RoundTrip.ParsedOver | internal/eapaka/codec.go:224-233 | parsing over an encoded well-framed list yields the list and then whatever the rest of the buffer parses to |
| RoundTrip.PacketRoundTrip | internal/eapaka/codec.go:162-242 | decoding an encoded packet gives it back, for attribute lists of any length up to the 65535 bytes the header can say |
| Misalignment.OddNeverDecodes | internal/eapaka/codec.go:46-49 | a packet whose attributes are well framed but for an odd number of AT_AUTS and unknown kinds, wherever they are, is encoded and never accepted |
| Misalignment.EncodedAutsNeverDecodes | internal/eapaka/codec.go:46-49 | in particular no packet that holds one AT_AUTS written by the encoder among well-framed attributes |
| Misalignment.MisalignmentsCancel | internal/eapaka/codec.go:46-49 | a packet of two AT_AUTS, neither of which reads back alone, that decodes to itself |
| Wire.BlockLayout | internal/eapaka/codec.go:33-36 | AT_RAND, AT_AUTN, AT_MAC, AT_NONCE_S and AT_IV are [type, 5, 0, 0] and 16 bytes |
| Wire.ResLayout | internal/eapaka/codec.go:38-44 | AT_RES is type 3, words, length in bits, value, zeros |
| Wire.NextIdLayout | internal/eapaka/codec.go:69-75 | AT_NEXT_REAUTH_ID is type 14, words, length in bytes, identity, zeros |
| Wire.CounterLayout | internal/eapaka/codec.go:51-54 | AT_COUNTER is [19, 1, high, low] |
| Wire.TooSmallLayout | internal/eapaka/codec.go:56-58 | AT_COUNTER_TOO_SMALL is [20, 1, 0, 0] |
| Wire.PaddingLayout | internal/eapaka/codec.go:60-62 | AT_PADDING is type 6, words and zeros |
| Wire.EncrDataLayout | internal/eapaka/codec.go:64-67 | AT_ENCR_DATA is type 130, words, two zeros and the ciphertext |
| Wire.AutsLayout | internal/eapaka/codec.go:46-49 | AT_AUTS is [4, 4, 0, 0] and 14 bytes |
| Wire.PacketLayout | internal/eapaka/codec.go:162-196 | codes 3 and 4 are [code, identifier, 0, 4]; other packets eight header bytes with the length in two of them, then the attributes |
| Wire.ChallengeBytes | internal/eapaka/orchestrator.go:60-79 | the AKA-Challenge, byte for byte, with HMAC-SHA-1 of the packet with zeros in its MAC field, under the second 16 bytes of the generator's output for SHA-1 of "0", IMSI, IK, CK |
| Wire.ReauthRequestBytes | internal/eapaka/reauth.go:81-109 | the AKA-Reauthentication request, byte for byte: AT_COUNTER, AT_NONCE_S, AT_NEXT_REAUTH_ID and four bytes of AT_PADDING encrypted under K_encr, and HMAC-SHA-1 of the packet with zeros in its MAC field under K_aut |
| Mac.VerifyMac | internal/eapaka/keys.go:100-120 | a panic unless all 16 MAC bytes lie in the packet, else whether the received MAC is HMAC-SHA-1 under K_aut, cut to 16 bytes, of the packet with zeros there |
| Mac.FindAtMacOffset | internal/eapaka/orchestrator.go:263-274 | the loop computes the walk from offset 8, including the walk that never ends on a zero length byte |
| Capacity.LocatorAgreesWithin | internal/eapaka/orchestrator.go:262-289 | on every accepted request or response, with any spare bytes, the first decoded AT_MAC is the 16 bytes four after the located offset; with no AT_MAC decoded and no trailing bytes the locator gives -1 |
| Mac.CheckMac | internal/eapaka/orchestrator.go:167-173 | false when no offset is found, a panic when the located field runs past the packet, else whether the received MAC is right |
| Mac.CheckedIsValid | internal/eapaka/orchestrator.go:167-173 | the check is true exactly when the first AT_MAC decoded is HMAC-SHA-1 under K_aut, cut to 16 bytes, of the packet with zeros in the located field |
| Capacity.DecodedAgrees | internal/eapaka/codec.go:93-242 | spare bytes behind a packet change nothing about its decoding unless decoding without them runs past the end |
| Capacity.CheckRunsExactly | internal/eapaka/orchestrator.go:167-173 | with any spare bytes the locator finds the AT_MAC decoded first; the check ends if and only if its 16 bytes lie inside the packet, always so for packets that decode without spare bytes, and then decides as without them |
| Capacity.MacInSpareBytes | internal/eapaka/keys.go:110-116 | a 12-byte packet that is accepted with 16 spare bytes, on which the check then indexes past the end |
| Mac.Seal | internal/eapaka/orchestrator.go:76-79 | encode, compute the MAC, locate AT_MAC, patch in place what fits |
| Mac.SealedBytes | internal/eapaka/orchestrator.go:76-79 | a sealed packet is its encoding with HMAC-SHA-1 of itself, zeros in the MAC field, cut to 16 bytes, in that field |
| Mac.SealingCorrect | internal/eapaka/orchestrator.go:76-79 | for every well-framed list with AT_MAC after any attributes without one: the sealed bytes are the encoding of the packet with the MAC in place of zeros, decode to it, and verify |
| Encryption.CbcInverse | internal/eapaka/encryption.go:39-57 | CBC decryption undoes CBC encryption on whole blocks, for any block permutation |
| Encryption.CbcEncryptBlocks | internal/eapaka/encryption.go:39-41 | each ciphertext block is the cipher of its plaintext block xor the ciphertext block before, the IV for the first |
| Encryption.CbcDecryptBlocks | internal/eapaka/encryption.go:53-55 | each plaintext block is its ciphertext block deciphered, xor the ciphertext block before, the IV for the first |
| Encryption.CipherInputs | internal/eapaka/encryption.go:34-55 | an error for keys other than 16, 24 or 32 bytes, a panic for another IV size or partial blocks |
| Encryption.EncryptAttributes | internal/eapaka/encryption.go:16-43 | the encoded attributes, AT_PADDING up to a multiple of 16, encrypted; a panic when one byte is missing, an error for a bad key size |
| Encryption.DecryptAttributes | internal/eapaka/encryption.go:47-107 | an error for a bad key size, a panic for bad lengths, else the inner reading of the decrypted bytes |
| Encryption.ParseInner | internal/eapaka/encryption.go:60-106 | the loop stops quietly at the first malformed attribute and leaves AT_PADDING out |
| Encryption.InnerAgrees | internal/eapaka/encryption.go:60-106 | wherever the packet decoder accepts to the end of the buffer, on the kinds both read alike, the inner decoder returns the same attributes without AT_PADDING |
| Encryption.MalformedTailIgnored | internal/eapaka/encryption.go:60-71 | over an encoded list followed by malformed bytes the inner decoder returns the list without AT_PADDING |
| Encryption.PaddingSizes | internal/eapaka/encryption.go:22-33 | the padding added after well-framed attributes is nothing or a well-framed AT_PADDING of 4, 8 or 12 bytes |
| Encryption.EncryptionRoundTrip | internal/eapaka/encryption.go:16-107 | for every list of inner attributes the ciphertext is a multiple of 16 bytes and decrypts to exactly that list |
| Keys.Add160 | internal/eapaka/keys.go:67-74 | in place, the big-endian sum modulo 2^160 |
| Keys.Increment160 | internal/eapaka/keys.go:77-85 | in place, the big-endian successor modulo 2^160 |
| Keys.Round | internal/eapaka/keys.go:58-60 | the two together compute (XKEY + w + 1) mod 2^160 |
| Keys.PrfSha1 | internal/eapaka/keys.go:36-64 | the first outputLength bytes of the hash stream of that recurrence |
| Keys.StreamRefines | internal/eapaka/keys.go:36-64 | byte k of the output is byte k mod 20 of SHA-1 of the (k div 20)-th XKEY, where XKEY is a 160-bit integer and the next is (XKEY + w + 1) mod 2^160 |
| Keys.StreamPrefix | internal/eapaka/keys.go:36-64 | a shorter request is a prefix of a longer one |
| Keys.DeriveKeys | internal/eapaka/keys.go:88-98 | the keys are the generator's slices under SHA-1 of identity, IK, CK |
| Keys.KeysPartition | internal/eapaka/keys.go:88-98 | the four keys have 16, 16, 64 and 64 bytes and together are the generator's first 160 bytes, for every longer request too |
| Rotation.Rotate | internal/crypto/milenage.go:68-83 | the loop fills every byte from the two it straddles |
| Rotation.RotateRefines | internal/crypto/milenage.go:68-83 | the big-endian value of the result is the left rotation of the 128-bit value by bits mod 128 |
| Rotation.RotationsCompose | internal/crypto/milenage.go:68-83 | rotating twice is rotating by the sum |
| Rotation.RotationUndone | internal/crypto/milenage.go:68-83 | rotating on by 128 - (n mod 128) undoes rotating by n |
| Bits.XorBuffers | internal/crypto/milenage.go:59-65 | the loop computes the bytewise xor |
| Bits.XorTwice | internal/crypto/milenage.go:59-65 | xor with the same bytes twice gives the first argument back |
| Milenage.GenerateVectorsWithRand | internal/crypto/milenage.go:104-185 | AUTN, XRES, CK, IK and AK as the functions f1 to f5 define them, on the first six bytes of SQN and two of AMF; an error for other key sizes, a panic when SQN or AMF is shorter |
| Card.VectorsForCard | internal/crypto/milenage.go:104-185 | against MILENAGE over 128-bit integers with the literal rotation and constant of each function: for every key, OP, RAND, SQN and AMF the card reads SQN out of AUTN, finds its MAC-A and the AMF there, and RES, CK, IK and AK are its own |
| Card.AutsFromCard | internal/crypto/milenage.go:187-304 | an AUTS is the card's SQN xor AK* and MAC-S |
| Card.AkStarIsNotTheStandards | internal/crypto/milenage.go:19-32 | AK* differs from OUT5 with rotation 96 and constant 8 |
| Milenage.GenerateAuts | internal/crypto/milenage.go:287-304 | (SQN xor AK*) followed by MAC-S; an error for other key sizes, a panic for another length of SQN |
| Milenage.ComputeF5Star | internal/crypto/milenage.go:189-214 | AK* is the first six bytes of f5*, an error for other key sizes |
| Milenage.ComputeF1Star | internal/crypto/milenage.go:218-249 | MAC-S is the first eight bytes of f1* on the first six bytes of SQN and two of AMF, an error for other key sizes |
| Milenage.ValidateAuts | internal/crypto/milenage.go:258-283 | refused for other lengths and a wrong MAC-S, otherwise the sequence number |
| Milenage.AutsExact | internal/crypto/milenage.go:258-304 | an AUTS is accepted with sequence number s if and only if it is the AUTS generated for s |
| Milenage.AutsInjective | internal/crypto/milenage.go:287-304 | different sequence numbers have different AUTS |
| Hss.Resync | cmd/mock-hss/main.go:185-211 | validation, 48-bit unpack, +32, repack with the 16-bit and 32-bit truncations, fresh vectors |
| Hss.UnpackedIsValue | cmd/mock-hss/main.go:199-200 | the two reads give the big-endian value of the six bytes |
| Hss.PackedIsDigits | cmd/mock-hss/main.go:206-208 | the two truncating writes give the low six big-endian bytes |
| Hss.ResyncCarriesSqn | cmd/mock-hss/main.go:185-211 | for every device sequence number the fresh AUTN conceals it plus 32 modulo 2^48 |
| Hss.ResyncBelowWrap | cmd/mock-hss/main.go:185-211 | below 2^48 - 32 the first six AUTN bytes xor AK are exactly SQN_MS + 32, big-endian |
| Hss.ResyncForCard | cmd/mock-hss/main.go:185-225 | the fresh vectors are the card's at SQN_MS + 32 with AMF 8000: it reads that number modulo 2^48, accepts AUTN, and computes the same RES, CK and IK |
| Handlers.SessionStore.Create | internal/eapaka/session.go:40-65 | the record is stored under the id, or nothing on failure |
| Handlers.SessionStore.Get | internal/eapaka/session.go:68-99 | the record, none, or an error |
| Handlers.SessionStore.Delete | internal/eapaka/session.go:102-107 | the key is gone unless the call fails |
| Handlers.SessionStore.Update | internal/eapaka/session.go:110-150 | given fields replace, others stay, identifier 0 is skipped, a missing record is created without the other fields |
| Handlers.ReauthStore.Store | internal/eapaka/reauth_store.go:49-68 | the state is stored under its own identity |
| Handlers.ReauthStore.Get | internal/eapaka/reauth_store.go:71-92 | the state, none, or an error |
| Handlers.ReauthStore.Delete | internal/eapaka/reauth_store.go:95-100 | the identity is gone unless the call fails |
| Handlers.ReauthSessionStore.Create | internal/eapaka/reauth_session.go:39-64 | the record is stored under the id, or nothing on failure |
| Handlers.ReauthSessionStore.Get | internal/eapaka/reauth_session.go:67-92 | the record, none, or an error |
| Handlers.ReauthSessionStore.Delete | internal/eapaka/reauth_session.go:95-100 | the key is gone unless the call fails |
| Handlers.Orchestrator.NextIdentifier | internal/eapaka/orchestrator.go:276-280 | the 32-bit counter advances with wrap-around and its low byte is returned |
| Handlers.Orchestrator.HandleInitialRequest | internal/eapaka/orchestrator.go:54-102 | the stores, the counter and the reply after the call are those of the specification `Protocol.InitialRequest`, pinned by `InitialChallengesExactly`, `ChallengeBytes`, `InitialKeeps` |
| Handlers.Orchestrator.HandleEapResponse | internal/eapaka/orchestrator.go:105-211 | likewise for `Protocol.EapResponse`, pinned by `FullAuthSucceedsExactly`, `ResyncChallengesExactly`, `EapReplyBytes`, `EapIdentitiesExactly`, `EapResponseEnds`, `EapKeeps` |
| Handlers.Orchestrator.CheckAnswer | internal/eapaka/orchestrator.go:147-173 | true exactly when the packet is a challenge response with AT_RES equal to XRES and a right AT_MAC; false or the panic of the MAC check otherwise |
| Handlers.Orchestrator.HandleSyncFailure | internal/eapaka/orchestrator.go:213-260 | likewise for `Protocol.SyncFailure`, also when the record expires before it is updated |
| Handlers.ReauthHandler.NextReauthIdentifier | internal/eapaka/reauth.go:266-270 | the 32-bit counter advances with wrap-around and its low byte is returned |
| Handlers.ReauthHandler.HandleReauthRequest | internal/eapaka/reauth.go:49-132 | likewise for `Protocol.ReauthRequest`, pinned by `RequestChallengesExactly`, `ReauthRequestBytes`, `RequestIdentitiesExactly`, `ReauthRequestKeeps` |
| Handlers.ReauthHandler.HandleReauthResponse | internal/eapaka/reauth.go:135-264 | likewise for `Protocol.ReauthResponse`, pinned by `ReauthSucceedsExactly`, `ReauthReplyBytes`, `ReauthIdentitiesExactly`, `ReauthResponseEnds`, `ReauthKeeps` |
| Handlers.ReauthHandler.CheckResponse | internal/eapaka/reauth.go:166-188 | true exactly when the packet has AT_IV, AT_ENCR_DATA and a right AT_MAC over the packet alone; false or the panic of the MAC check otherwise |
| Handlers.ReauthHandler.FinishResponse | internal/eapaka/reauth.go:199-264 | likewise for `Protocol.JudgeInner`: counter too small, counter missing or wrong, rotation |
| Soundness.FullAuthSucceedsExactly | internal/eapaka/orchestrator.go:105-211 | a full authentication succeeds if and only if the session is open and awaiting an answer, the relay decodes and answers its challenge with a right MAC, the subscriber is found, and none of three calls fails |
| Soundness.ReauthSucceedsExactly | internal/eapaka/reauth.go:135-264 | a fast re-authentication succeeds if and only if the session is open, the relay decodes, has a right MAC under its K_aut and decrypts under its K_encr to its counter without AT_COUNTER_TOO_SMALL, and neither of two calls fails |
| Soundness.ChallengesNotTold | internal/eapaka/reauth.go:181-230 | open sessions that share keys and counter succeed on exactly the same responses, whatever their nonces, identifiers and identities |
| Effects.EapReplyBytes | internal/eapaka/orchestrator.go:291-296 | a refused full authentication is sent [4, identifier, 0, 4] and an accepted one [3, identifier, 0, 4], with the session's identifier, or 0 without a session |
| Effects.ReauthReplyBytes | internal/eapaka/reauth.go:258-277 | the same for a re-authentication |
| Effects.EapIdentitiesExactly | internal/eapaka/orchestrator.go:183-196 | a full-authentication success stores the identity it answers with the subscriber looked up, the session's IMSI and keys and counter 1; nothing else is stored or dropped |
| Effects.ReauthIdentitiesExactly | internal/eapaka/reauth.go:158-252 | AUTH_REJECT, and a proper response that reports the counter too small or holds another one, drop the session's identity; acceptance replaces it, with the counter plus one and all else carried over; every other outcome leaves it; no other identity changes |
| Effects.RefusalRevokes | internal/eapaka/reauth.go:158-230 | a refused response revokes the identity if and only if it is one of those |
| Effects.RequestIdentitiesExactly | internal/eapaka/reauth.go:59-63 | a request drops an identity at 65535 and no other |
| Effects.InitialChallengesExactly | internal/eapaka/orchestrator.go:54-102 | a first request is challenged if and only if the HSS knows the IMSI, its vectors can be encoded and the session is created; otherwise no session changes |
| Effects.RequestChallengesExactly | internal/eapaka/reauth.go:49-132 | a re-authentication request is challenged if and only if the identity is live below 65535, its challenge can be made and none of five calls fails |
| Effects.ResyncChallengesExactly | internal/eapaka/orchestrator.go:213-227 | a response is challenged again if and only if it is a synchronization failure on an awaiting session with 14 bytes of AT_AUTS for which the HSS, asked with the session's IMSI and RAND, answers vectors that can be encoded |
| Effects.InitialKeeps | internal/eapaka/orchestrator.go:83-94 | no first request touches another session or any identity |
| Effects.EapKeeps | internal/eapaka/orchestrator.go:105-260 | no full-authentication response touches another session |
| Effects.ReauthRequestKeeps | internal/eapaka/reauth.go:49-132 | no re-authentication request touches another session |
| Effects.ReauthKeeps | internal/eapaka/reauth.go:135-264 | no re-authentication response touches another session |
| Effects.EapErrorsKeep | internal/eapaka/orchestrator.go:105-211 | a full-authentication response that ends in an error, a panic or an endless loop changes no store |
| Effects.ZeroIdentifierLags | internal/eapaka/session.go:135-137 | a resynchronization that draws identifier 0 leaves the old identifier in the record |
| Effects.ZeroLengthHangs | internal/eapaka/codec.go:224-233 | a response whose first attribute claims no bytes keeps the handler for ever |
| Counterexamples.OneReplyTwoSessions | internal/eapaka/reauth.go:49-264 | two requests for one identity and the honest reply to the first sent to both: both succeed and both next identities are live with the same counter |
| Runs.SessionAfter | internal/eapaka/orchestrator.go:54-260 | the only ways a session record can be there after any event, with what it then holds |
| Runs.IdentitiesAfter | internal/eapaka/reauth.go:237-252 | an event stores an identity if and only if it is answered with success; then the response was one its session accepts, the identity is the one answered, with these fields, and the only other change is that a rotation deletes the old identity; otherwise records are at most deleted |
| Runs.ReauthSessionAfter | internal/eapaka/reauth.go:106-124 | a re-authentication session is there because it was or because a live, unexhausted identity opened it with its own fields and was sent the challenge made of them |
| Safety.ConsistentStep | internal/eapaka/orchestrator.go:54-260 | key coherence and counter ranges are kept by every event, whatever fails or expires |
| Safety.AlwaysConsistent | internal/eapaka/reauth.go:49-264 | in every reachable state: a session in CHALLENGE_SENT has the master key of its own IMSI, IK and CK and its keys are that key's slices; a record without state has been recreated; counters of identities lie in 1..65535 and of sessions in 1..65534 |
| Backing.BackedAlways | internal/eapaka/orchestrator.go:229-255 | in every run every session awaiting a response holds the XRES, RAND and K_aut of the latest challenge that reached its record, on the IMSI it was opened for |
| Backing.RecordedChallengeAnswered | internal/eapaka/orchestrator.go:105-211 | in every run, whatever fails, a full-authentication success answers the latest challenge that reached its session's record: AT_RES is that challenge's XRES, the MAC holds under its K_aut, the subscriber is the one of the IMSI the session was opened for |
| Backing.FullAuthSound | internal/eapaka/orchestrator.go:105-211 | and that is the latest challenge sent on the session, if none of its updates failed |
| Counterexamples.FailedUpdateAnswersOlder | internal/eapaka/orchestrator.go:252-255 | a run in which an update fails, a newer challenge is sent and the answer to the older one succeeds |
| ReauthBacking.ReauthSound | internal/eapaka/reauth.go:49-264 | in every run, whatever fails, a re-authentication success is on a session opened last by an earlier request for an identity live then, with the MAC right under that identity's K_aut, its counter echoed under its K_encr, its subscriber answered and the next identity of that request stored |
| ReauthBacking.OpeningTells | internal/eapaka/reauth.go:81-124 | in every run the challenge that opened a session told a peer with the identity's keys its counter, the nonce and the next identity the session stores |
| Identities.StoredTwiceOnlyIfLeft | internal/eapaka/reauth.go:237-252 | with fresh random identities, if an identity is stored by two events, both are responses on one session and the first failed to delete it |
| Identities.StoredOnce | internal/eapaka/reauth.go:237-252 | so an identity whose storing responses deleted their sessions is stored by one event only |
| Identities.NeverRevived | internal/eapaka/reauth.go:158-252 | such an identity that was live and is gone, for whatever reason, is never live again |
| Identities.DescentUnique | internal/eapaka/reauth.go:237-252 | the chain of events an identity descends from is unique if it and its ancestors are such identities |
| Identities.Provenance | internal/eapaka/reauth.go:237-252 | in every run every live identity descends by a chain of rotations, each carrying on subscriber, IMSI and keys, from a full-authentication success with the same; the chain is as long as its counter, which lies in 1..65535; with fresh identities and no session left on the way it is the only one |
| OneShot.EapResponseEnds | internal/eapaka/orchestrator.go:105-260 | after a response answered with success or failure the session is there if and only if it was and deleting it failed |
| OneShot.ReauthResponseEnds | internal/eapaka/reauth.go:135-264 | the same for a re-authentication response answered without error |
| OneShot.SucceedsTwiceOnlyIfLeft | internal/eapaka/orchestrator.go:201-205 | with fresh session ids, if an id is answered with success by two events of a run, of either kind, the first failed to delete the session |
| OneShot.SucceedsOnce | internal/eapaka/orchestrator.go:201-205 | so an id whose successes deleted the session is answered with success once |
| Counterexamples.FailedDeleteStoresTwice | internal/eapaka/reauth.go:252 | any run with a live identity goes on to one in which a success fails to delete its session, the same response is answered again and one identity is stored twice |
| Completion.ReauthDelivers | internal/eapaka/reauth.go:81-111 | a re-authentication packet under valid keys is produced, decodes, verifies and decrypts to its inner attributes |
| Completion.RequestAnswered | internal/eapaka/reauth.go:49-132 | a request for a live identity is answered with an authentic challenge that decrypts to its counter, the nonce and the next identity, which an honest peer answers and keeps |
| Completion.EchoAccepted | internal/eapaka/reauth.go:145-230 | a sealed echo of the counter is accepted under any identifier and IV, with any bytes behind it |
| Completion.ReplyAccepted | internal/eapaka/reauth.go:135-264 | so the honest answer, under any identifier, to an open session reaches the rotation |
| Completion.FastReauthCompletes | internal/eapaka/reauth.go:49-264 | from every consistent state: request, honest answer, success; the identity and the session are gone, the identity the peer decrypted is live with the counter plus one and all else the same |
| Completion.HonestAnswerAccepted | internal/eapaka/orchestrator.go:105-211 | a peer that returns XRES under K_aut is let in, gets a fresh identity with counter 1 and the session's keys, and the session is gone |
| Lifetime.FullAuthCompletes | internal/eapaka/orchestrator.go:54-211 | from every state: first request, honest answer over the vectors' keys, success; only a fresh identity with counter 1 is left of it |
| Lifetime.CardIsHonest | internal/eapaka/orchestrator.go:60-79 | a challenge over generated vectors is answered by the card they were generated for, which accepts AUTN and reads the sequence number |
| Lifetime.RoundsComplete | internal/eapaka/reauth.go:49-264 | after any run, any number of honest rounds completes, the peer using each time the identity it decrypted, as long as the counter stays within 65535; the identity it then holds is live with the counter that much higher and all else the same |
| Lifetime.ExhaustedFallsBack | internal/eapaka/reauth.go:59-63 | a request for a live identity falls back if and only if its counter has reached 65535, and then drops it |
| Lifetime.WholeLife | internal/eapaka/reauth.go:49-264 | from an empty server, one full authentication and n honest rounds for every n below 65535 reach counter n + 1 under the keys of SHA-1 of "0", IMSI, IK, CK; the next request falls back exactly at 65535 |
| Resynchronization.StandardAutsRead | internal/eapaka/codec.go:121-124 | a packet with AT_AUTS in the layout of section 10.9 of RFC 4187 after well-framed attributes is accepted if and only if two more bytes follow, inside it or in spare capacity, and what follows inside it can be read; the first AT_AUTS decoded is then the device's without its first two bytes and with those two at its end |
| Resynchronization.StandardAutsReachesHss | internal/eapaka/codec.go:121-124 | accepted, it holds the device's AUTS if and only if that is one pair of bytes repeated and the next two bytes are that pair |
| Resynchronization.StandardAutsPanics | internal/eapaka/codec.go:121-124 | with fewer than two bytes after it and no spare capacity the decoder reads past the buffer |
| Resynchronization.StandardResync | internal/eapaka/orchestrator.go:105-144 | what the 24-byte synchronization failure of a conforming device leads to, whatever the AUTS: a panic that changes nothing with fewer than two spare bytes behind it, otherwise the resynchronization with the AUTS two bytes off |
| Resynchronization.MisreadRefused | cmd/mock-hss/main.go:185-197 | the HSS accepts that misread AUTS if and only if it is the AUTS of some sequence number |
| Resynchronization.PaddedAutsDecodes | internal/eapaka/codec.go:121-124 | AT_AUTS with two reserved bytes before it and two of padding after, at the end of a packet after well-framed attributes, is decoded as it is |
| Resynchronization.ChallengeCarries | internal/eapaka/orchestrator.go:235-250 | a challenge over well-sized vectors decodes to exactly their RAND and AUTN and verifies under the keys they give |
| Resynchronization.ResyncEndToEnd | internal/eapaka/orchestrator.go:213-260 | once the decoded AT_AUTS is the AUTS of a device at SQN_MS: the new challenge carries a RAND and AUTN that its card accepts with SQN_MS + 32 modulo 2^48, and the session holds that card's RES and the master key of its IK and CK |
| Resynchronization.PaddedResync | internal/eapaka/orchestrator.go:105-260 | the same from the 28 bytes on the wire of a device that pads its AT_AUTS (not those of a conforming one) |
| Routes.IdempotencyCache.CacheResponse | internal/eapaka/idempotency.go:26-33 | the body is kept under the key of session id and relay |
| Routes.IdempotencyCache.GetCachedResponse | internal/eapaka/idempotency.go:36-46 | the body kept under the key, if any |
| Routes.EntitlementHandler.HandleEapRelayPath | internal/server/routes.go:93-199 | the stores, the cache, the tokens and the HTTP answer are those of the specification `Routes.Posted` |
| Routes.EntitlementHandler.Dispatch | internal/server/routes.go:114-121 | a re-authentication session takes the response if one is found, otherwise full authentication does |
| Routes.EntitlementHandler.Answer | internal/server/routes.go:124-199 | the HTTP answer to each handler result, a panic being answered by the recovering middleware (internal/server/middleware.go:76-90); what is kept with it; and the temporary token a re-authentication may issue |
| Routes.PostGoesTo | internal/server/routes.go:114-165 | a POST not answered from the cache has the state of the server changed by the re-authentication handler if such a session is found under its id, else by full authentication |
| Routes.PostAnswers | internal/server/routes.go:124-199 | it is answered 200 with what is built for a success, 401 with the new session's id for a challenge, 401 without for a refusal, 500 for an error, a panic or a failed build |
| Routes.PostTokens | internal/server/routes.go:134-146 | it issues a temporary token exactly when it is a re-authentication success that asks for one and is built |
| Routes.NoSessionId | internal/server/routes.go:94-100 | without a session id it is answered 400 and changes nothing |
| Routes.EntitlementHandler.HandleTempTokenSideEffect | internal/server/routes.go:371-377 | a temporary token is issued exactly for the acquiring operation on the two applications |
| Routes.EntitlementHandler.SendFormattedResponse | internal/server/routes.go:344-361 | JSON is sent and kept with the relay in it; XML is sent as it is and kept inside JSON; any other body is sent and not kept |
| Idempotency.EntryStays | internal/server/routes.go:102-110 | a live cache entry is never overwritten |
| Idempotency.RetryReplays | internal/server/routes.go:93-122 | over every run in which the key's entry neither runs out nor fails to be read, a kept JSON answer is repeated to every later POST whose session id and relay are the same characters, and no store, token nor the cache changes |
| Idempotency.RetryReplaysUnread | internal/server/routes.go:93-122 | the same with reads failing in between, with fresh session ids and if the successes on that session deleted it |
| Idempotency.XmlRetryIsJson | internal/server/routes.go:344-350 | the retry of an XML answer is a JSON object with the document under "_xml" |
| Idempotency.ForeignAnswer | internal/server/routes.go:93-110 | from an empty server: first request, honest answer, and then a POST on an id under which no session was ever opened gets the same 200 |
| Idempotency.SameKey | internal/eapaka/idempotency.go:48-51 | two POSTs have the same key if and only if session id and relay together are the same characters |
| Idempotency.OkOriginates | internal/server/routes.go:93-122 | whatever clients send, every 200 goes back to one successful authentication whose session id and relay are the same characters and says what that one kept; it is the session the POST names if and only if that id has the length of the server's own |
| Idempotency.CacheIsTransparent | internal/server/routes.go:93-122 | behind the cache the stores go through a run of the handlers alone |
| Idempotency.OneAnswerPerSession | internal/server/routes.go:93-199 | whatever clients send, any two 200 answers on one id of the server's length, whose successes deleted its session, carried the same relay and, in JSON, are the same answer |
| Tokens.Service.GenerateToken | internal/token/service.go:59-103 | the row with the expiry the column keeps, the cache entry with the full one |
| Tokens.Service.GenerateTemporaryToken | internal/token/service.go:174-192 | a token of the temporary type, and its scope record under the colliding key |
| Tokens.Service.CheckCache | internal/token/service.go:147-170 | the unexpired entry answers, an expired one is deleted |
| Tokens.Service.ValidateToken | internal/token/service.go:107-143 | cache first, then the row, which is cached again while it has time left |
| Tokens.RunAgrees | internal/token/service.go:59-192 | in every run each cached token is its unconsumed row, with an expiry less than one tick later |
| Tokens.ValidatesLikeDatabase | internal/token/service.go:107-170 | in every run, for every string, validation decides as the database alone if and only if the call is not between the truncated and the full expiry of a cached token |
| Tokens.ExactWithoutTruncation | internal/token/service.go:107-170 | with a column as fine as the clock the answers are always equal |
| Tokens.GeneratedValidates | internal/token/service.go:57-170 | in every run a token generated anywhere validates to the subscriber and type it was generated for until its time to live ends, to the precision of the column, and to nothing a tick later |
| Tokens.ScopeKept | internal/token/service.go:180-189 | the scope and targets of a temporary token are kept under "token:scope:" and the token |
| Tokens.ValidationCaches | internal/token/service.go:126-162 | a validation from the database caches the row while it has time left, and one that finds nothing leaves no entry |
| Tokens.TruncationShows | sql/schema.sql:49 | with a microsecond column there is a token the cache accepts and the database refuses |
| Xml.EscapeXml | internal/protocol/xml_builder.go:35-41 | the four replacements in sequence are one pass that maps each character on its own |
| Xml.FourReplacements | internal/protocol/xml_builder.go:35-41 | the same, for every string, as a statement about the replacements |
| Xml.UnescapeEscaped | internal/protocol/xml_builder.go:35-41 | unescaping undoes escaping on every string |
| Xml.ConformingValue | internal/protocol/xml_builder.go:35-41 | a conforming XML reader, which refuses characters outside production Char and normalizes white space, gets an escaped string back if and only if it holds no such character and no tab, newline or carriage return |
| Xml.ControlCharacterRefused | internal/protocol/xml_builder.go:35-41 | a control character, which holds none of the latter, has the document refused |
| Xml.PrintedParses | internal/protocol/xml_builder.go:9-33 | the printed form of any tree of characteristics and parameters is well nested and this model's parser, which keeps white space in values, gets the tree back |
| Xml.Parameter | internal/protocol/xml_builder.go:43-49 | a parameter line with both strings escaped |
| Xml.BuildApplicationCharacteristic | internal/protocol/xml_builder.go:51-88 | the lines are the printed form of the application's characteristic, optional parameters included when present |
| Xml.BuildXmlResponse | internal/protocol/xml_builder.go:9-33 | that parser gets VERS, TOKEN and the applications back with all their names and values |
| XmlContent.DocumentSays | internal/protocol/xml_builder.go:9-33 | the document is VERS with version and validity, TOKEN with the token, and one APPLICATION for each application, in order |
| XmlContent.ApplicationSays | internal/protocol/xml_builder.go:51-88 | looked up by name, an application gives its id, its statuses when set, its service flow URL when not empty, then its extra parameters; inside it are its addresses |
| XmlContent.ItoaReads | internal/protocol/xml_builder.go:18 | the decimal numbers read back, negative ones too |
| XmlContent.SmallDocument | internal/protocol/xml_builder.go:9-49 | a document of one characteristic with one parameter, letter for letter |

## Left out

- Base64, JSON, Redis, PostgreSQL, HTTP and UUIDs: stores are maps, encodings keep what they are given, ids and random bytes are inputs; a failing store call changes nothing.
- Interleaving inside one handler call, except a session expiring before it is updated: Get and Delete are separate Redis calls in the original, so the one-shot results hold for calls that do not overlap.
- Strings as bytes: IMSIs and identities are byte strings and session ids character strings; Unicode does not enter.
- Remaining times to live: expiry is an event that can happen to any key at any time, which is more than a timer allows.
- DeriveReauthKeys: its result is discarded by the only caller.
- RoundTrip.PacketRoundTrip: leaves out AT_AUTS and unknown kinds, none of which reads back alone (`ReadsBackExactly`) and an odd number of which is never decoded (`OddNeverDecodes`), though two can cancel (`MisalignmentsCancel`); and values longer than the length byte can say.
- Idempotency.RetryReplays: equality is of the JSON value (the first answer ends in a newline that the repeated one does not have); excludes failing reads of the key in between, of which `RetryReplaysUnread` says when they do not matter.
- Xml.PrintedParses: is about this model's parser; what a conforming reader does with each string is `ConformingValue`.
- Resynchronization.ResyncEndToEnd: says nothing of AT_AUTS in the standard's layout, which is read two bytes off (`StandardAutsRead`); and assumes the record does not expire and no call fails during the resynchronization; those cases are covered by `AlwaysConsistent`.
- The order of ExtraParams: Go walks the map in any order; the model takes the order as part of the input.
- The token path, the initial path and GET /entitlement: thin dispatch over the modelled handlers and the token service.
- ConsumeToken and DeleteExpiredTokens: no caller, and consuming a row does not reach the cache.
- Negative times to live and clock steps backwards.
- Persistence of SQN in the mock HSS and its /vectors handler: the update is keyed wrongly and its error ignored, and /vectors packs only 32 bits; only the vectors returned by /resync are modelled.
- The service builders, the JSON builder, auditing, configuration and deployment.
